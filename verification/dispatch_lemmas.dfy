/** What the per-request pipeline promises: arguments are built in order and
    the first failure ends the request before the handler runs; the error
    result is looked at before anything else; `ToResponse` runs on every other
    non-body result in order; the body comes last. */
module DispatchLemmas {
  import opened Protocol
  import opened Responses
  import opened Plan
  import opened Dispatch

  /** Parameters below `j` can all be built for this request. */
  predicate BuildsBelow(p: Info, env: Env, j: nat)
    requires WellFormed(p) && j <= p.inputCount
  {
    forall k :: 0 <= k < j ==> BindArg(p, env, k).Built?
  }

  /** The arguments handed to the handler once every parameter is built. */
  function BuiltArgs(p: Info, env: Env): seq<Arg>
    requires WellFormed(p) && BuildsBelow(p, env, p.inputCount)
  {
    seq(p.inputCount, k requires 0 <= k < p.inputCount => BindArg(p, env, k).arg)
  }

  /** The `ToResponse` calls expected on results `lo` up to `hi`, skipping the
      body result `skip`: the reference the pipeline is compared with. */
  function Responders(skip: int, lo: nat, hi: nat): seq<Event>
    decreases hi - lo
  {
    if lo >= hi then [] else (if lo == skip then [] else [ToResponse(lo)]) + Responders(skip, lo + 1, hi)
  }

  // ---------------------------------------------------------------------
  // Building the arguments

  lemma AttemptsCons(p: Info, lo: nat, hi: nat)
    requires lo < hi
    ensures [Attempt(p, lo)] + Attempts(p, lo + 1, hi) == Attempts(p, lo, hi)
  {
    assert ([Attempt(p, lo)] + Attempts(p, lo + 1, hi))[0] == Attempts(p, lo, hi)[0];
  }

  lemma AttemptsSnoc(p: Info, lo: nat, hi: nat)
    requires lo <= hi
    ensures Attempts(p, lo, hi) + [Attempt(p, hi)] == Attempts(p, lo, hi + 1)
  {
  }

  lemma {:induction false} BindFromAllBuilt(p: Info, env: Env, i: nat)
    requires WellFormed(p) && i <= p.inputCount
    requires forall k :: i <= k < p.inputCount ==> BindArg(p, env, k).Built?
    ensures BindFrom(p, env, i).AllBuilt?
    ensures BindFrom(p, env, i).events == Attempts(p, i, p.inputCount)
    ensures forall k :: 0 <= k < p.inputCount - i ==> BindFrom(p, env, i).args[k] == BindArg(p, env, i + k).arg
    decreases p.inputCount - i
  {
    if i < p.inputCount {
      BindFromAllBuilt(p, env, i + 1);
      AttemptsCons(p, i, p.inputCount);
    }
  }

  lemma BindFromBuiltThenAborted(p: Info, env: Env, i: nat)
    requires WellFormed(p) && i < p.inputCount
    requires BindArg(p, env, i).Built? && BindFrom(p, env, i + 1).Aborted?
    ensures BindFrom(p, env, i) == Aborted([Attempt(p, i)] + BindFrom(p, env, i + 1).events)
  {
  }

  lemma {:induction false} BindFromFirstRejection(p: Info, env: Env, i: nat, j: nat)
    requires WellFormed(p) && i <= j < p.inputCount
    requires forall k :: i <= k < j ==> BindArg(p, env, k).Built?
    requires BindArg(p, env, j).Rejected?
    ensures BindFrom(p, env, i) == Aborted(Attempts(p, i, j + 1) + BindArg(p, env, j).response)
    decreases j - i
  {
    var resp := BindArg(p, env, j).response;
    if i < j {
      BindFromFirstRejection(p, env, i + 1, j);
      var later := Attempts(p, i + 1, j + 1);
      BindFromBuiltThenAborted(p, env, i);
      AttemptsCons(p, i, j + 1);
      assert [Attempt(p, i)] + (later + resp) == ([Attempt(p, i)] + later) + resp;
    } else {
      assert BindFrom(p, env, i) == Aborted([Attempt(p, i)] + resp);
      assert Attempts(p, i, j + 1) == [Attempt(p, i)];
    }
  }

  /** Building from `i` on fails exactly when some parameter from `i` on cannot be built. */
  lemma {:induction false} BindFromAbortedIff(p: Info, env: Env, i: nat)
    requires WellFormed(p) && i <= p.inputCount
    ensures BindFrom(p, env, i).Aborted? <==> exists k :: i <= k < p.inputCount && BindArg(p, env, k).Rejected?
    decreases p.inputCount - i
  {
    if i < p.inputCount {
      BindFromAbortedIff(p, env, i + 1);
      if BindArg(p, env, i).Rejected? {
        assert BindFrom(p, env, i).Aborted?;
      }
    }
  }

  /** Argument short-circuit: when parameter `j` is the first that cannot be
      built, the parameters up to `j` were processed in ascending order, none
      after it was, exactly one error response was written, and the handler
      was not called. */
  lemma ArgumentShortCircuit(p: Info, env: Env, j: nat)
    requires WellFormed(p) && HandlerConforms(p, env) && j < p.inputCount
    requires BuildsBelow(p, env, j) && BindArg(p, env, j).Rejected?
    ensures Serve(p, env) == Attempts(p, 0, j + 1) + BindArg(p, env, j).response
    ensures forall k :: 0 <= k < |Serve(p, env)| && Stage(Serve(p, env)[k]) == 0 ==> Serve(p, env)[k].index == k <= j
    ensures EndsWithError(Serve(p, env)) && ErrorLast(Serve(p, env))
    ensures !Called(Serve(p, env)) && !WroteResults(Serve(p, env))
  {
    BindFromFirstRejection(p, env, 0, j);
    var t := Serve(p, env);
    var resp := BindArg(p, env, j).response;
    assert t == Attempts(p, 0, j + 1) + resp;
    forall k | 0 <= k < |t|
      ensures !t[k].CallHandler? && !t[k].ToResponse? && !t[k].EncodeBody?
      ensures Stage(t[k]) == 0 ==> t[k].index == k <= j
    {
      if k > j {
        assert t[k] == resp[k - j - 1];
        assert Stage(resp[k - j - 1]) == 4;
      }
    }
  }

  /** Body decode failure: a request body the decoder rejects is answered
      with 400 and the decoder's message, without going through
      `ResponseError`; nothing is logged. */
  lemma BodyDecodeFailure(p: Info, env: Env)
    requires WellFormed(p) && HandlerConforms(p, env)
    requires 0 <= p.requestBodyIndex < p.inputCount && BuildsBelow(p, env, p.requestBodyIndex)
    requires env.decode.Fail?
    ensures Serve(p, env) == Attempts(p, 0, p.requestBodyIndex)
      + [DecodeBody(p.requestBodyIndex), WriteError(StatusBadRequest, "error decoding json: " + env.decode.error)]
  {
    var j := p.requestBodyIndex;
    ArgumentShortCircuit(p, env, j);
    AttemptsSnoc(p, 0, j);
  }

  /** A `FromRequest` failure on a non-body parameter goes through
      `ResponseError`, for pointer and value parameters alike. */
  lemma ExtractFailure(p: Info, env: Env, j: nat)
    requires WellFormed(p) && HandlerConforms(p, env) && j < p.inputCount && j != p.requestBodyIndex
    requires BuildsBelow(p, env, j) && env.fromRequest(j).Fail?
    ensures Serve(p, env) == Attempts(p, 0, j) + [Extract(j)] + ResponseError(env.fromRequest(j).error)
  {
    ArgumentShortCircuit(p, env, j);
    AttemptsSnoc(p, 0, j);
  }

  /** The handler is called if and only if every parameter can be built. */
  lemma HandlerCalledIff(p: Info, env: Env)
    requires WellFormed(p) && HandlerConforms(p, env)
    ensures Called(Serve(p, env)) <==> BuildsBelow(p, env, p.inputCount)
  {
    BindFromAbortedIff(p, env, 0);
    var t := Serve(p, env);
    if BuildsBelow(p, env, p.inputCount) {
      var b := BindFrom(p, env, 0);
      assert t[|b.events|] == CallHandler(b.args);
    } else {
      var j :| 0 <= j < p.inputCount && BindArg(p, env, j).Rejected?;
      FirstRejection(p, env, j);
    }
  }

  /** Below any parameter that cannot be built there is a first one. */
  lemma {:induction false} FirstRejection(p: Info, env: Env, j: nat)
    requires WellFormed(p) && HandlerConforms(p, env) && j < p.inputCount && BindArg(p, env, j).Rejected?
    ensures !Called(Serve(p, env))
    decreases j
  {
    if BuildsBelow(p, env, j) {
      ArgumentShortCircuit(p, env, j);
    } else {
      var k :| 0 <= k < j && BindArg(p, env, k).Rejected?;
      FirstRejection(p, env, k);
    }
  }

  /** When every parameter builds, the trace is their starts, the call with
      the built arguments, and whatever follows the call. */
  lemma ServeAllBuilt(p: Info, env: Env)
    requires WellFormed(p) && HandlerConforms(p, env) && BuildsBelow(p, env, p.inputCount)
    ensures var args := BuiltArgs(p, env);
      Serve(p, env) == Attempts(p, 0, p.inputCount) + [CallHandler(args)] + AfterCall(p, env, env.call(args))
  {
    BindFromAllBuilt(p, env, 0);
    assert BindFrom(p, env, 0).args == BuiltArgs(p, env);
  }

  /** Value versus pointer parameters: when every parameter builds, the
      handler is called with the decoded body at the body index, a pointer to
      the populated value at a pointer parameter, and the populated value
      itself at any other parameter. */
  lemma HandlerReceivesBuiltArgs(p: Info, env: Env)
    requires WellFormed(p) && HandlerConforms(p, env) && BuildsBelow(p, env, p.inputCount)
    ensures var args := BuiltArgs(p, env);
      Serve(p, env) == Attempts(p, 0, p.inputCount) + [CallHandler(args)] + AfterCall(p, env, env.call(args))
    ensures 0 <= p.requestBodyIndex < p.inputCount ==>
      env.decode.Ok? && BuiltArgs(p, env)[p.requestBodyIndex] == Val(env.decode.value)
    ensures forall k :: 0 <= k < p.inputCount && k != p.requestBodyIndex ==> env.fromRequest(k).Ok?
    ensures forall k :: 0 <= k < p.inputCount && k != p.requestBodyIndex ==>
      BuiltArgs(p, env)[k] == (if p.isPointer[k] then Ptr(env.fromRequest(k).value) else Val(env.fromRequest(k).value))
  {
    ServeAllBuilt(p, env);
    BindFromAllBuilt(p, env, 0);
    assert BindFrom(p, env, 0).args == BuiltArgs(p, env);
    if 0 <= p.requestBodyIndex < p.inputCount {
      assert BindArg(p, env, p.requestBodyIndex).Built?;
    }
    forall k | 0 <= k < p.inputCount && k != p.requestBodyIndex
      ensures env.fromRequest(k).Ok?
      ensures BuiltArgs(p, env)[k] == (if p.isPointer[k] then Ptr(env.fromRequest(k).value) else Val(env.fromRequest(k).value))
    {
      assert BindArg(p, env, k).Built?;
    }
  }

  // ---------------------------------------------------------------------
  // After the call

  /** Error slot first: a non-nil trailing error is answered through
      `ResponseError` and nothing else happens: no `ToResponse`, no body. */
  lemma ErrorSlotFirst(p: Info, env: Env)
    requires WellFormed(p) && HandlerConforms(p, env) && BuildsBelow(p, env, p.inputCount)
    requires p.lastIsError
    requires var rs := env.call(BuiltArgs(p, env)); rs[|rs| - 1].ErrorOut?
    ensures var args := BuiltArgs(p, env); var rs := env.call(args);
      Serve(p, env) == Attempts(p, 0, p.inputCount) + [CallHandler(args)] + ResponseError(rs[|rs| - 1].err)
    ensures !WroteResults(Serve(p, env))
  {
    ServeAllBuilt(p, env);
    var args := BuiltArgs(p, env);
    var t := Serve(p, env);
    var a := Attempts(p, 0, p.inputCount);
    forall k | 0 <= k < |t|
      ensures !t[k].ToResponse? && !t[k].EncodeBody?
    {
      if k > |a| {
        assert t[k] == AfterCall(p, env, env.call(args))[k - |a| - 1];
      }
    }
  }

  /** A nil trailing error is dropped, and the remaining results keep their
      indices: what follows is exactly what a plan without an error slot does
      with the other results. */
  lemma NilErrorDropped(p: Info, env: Env, results: seq<Output>)
    requires Conforms(p, results) && p.lastIsError && results[|results| - 1] == NilError
    ensures Conforms(p.(lastIsError := false), results[..|results| - 1])
    ensures AfterCall(p, env, results) == AfterCall(p.(lastIsError := false), env, results[..|results| - 1])
  {
    RespondFromOnlyReadsBodyIndex(p, p.(lastIsError := false), env, results[..|results| - 1], 0);
  }

  /** Of the plan, writing the results reads only the body index. */
  lemma {:induction false} RespondFromOnlyReadsBodyIndex(p: Info, q: Info, env: Env, rs: seq<Output>, i: nat)
    requires p.responseBodyIndex == q.responseBodyIndex
    requires -1 <= p.responseBodyIndex < |rs| && i <= |rs|
    ensures RespondFrom(p, env, rs, i) == RespondFrom(q, env, rs, i)
    decreases |rs| - i
  {
    if i < |rs| {
      RespondFromOnlyReadsBodyIndex(p, q, env, rs, i + 1);
    }
  }

  /** The reference `ToResponse` sequence names each result from `lo` to `hi`
      except `skip`, once, in ascending order. */
  lemma {:induction false} RespondersAscending(skip: int, lo: nat, hi: nat)
    requires lo <= hi
    ensures forall e :: e in Responders(skip, lo, hi) <==> e.ToResponse? && lo <= e.index < hi && e.index != skip
    ensures forall a, b :: 0 <= a < b < |Responders(skip, lo, hi)| ==>
      Responders(skip, lo, hi)[a].index < Responders(skip, lo, hi)[b].index
    decreases hi - lo
  {
    if lo < hi {
      RespondersAscending(skip, lo + 1, hi);
      var r := Responders(skip, lo + 1, hi);
      var head: seq<Event> := if lo == skip then [] else [ToResponse(lo)];
      assert Responders(skip, lo, hi) == head + r;
      forall a, b | 0 <= a < b < |head + r|
        ensures (head + r)[a].index < (head + r)[b].index
      {
        if a < |head| {
          assert (head + r)[b] == r[b - |head|] && r[b - |head|] in r;
        } else {
          assert (head + r)[a] == r[a - |head|] && (head + r)[b] == r[b - |head|];
        }
      }
    }
  }

  lemma {:induction false} RespondAllSucceed(p: Info, env: Env, rs: seq<Output>, i: nat)
    requires -1 <= p.responseBodyIndex < |rs| && i <= |rs|
    requires forall k :: i <= k < |rs| && k != p.responseBodyIndex ==> env.toResponse(k, rs[k]).None?
    ensures RespondFrom(p, env, rs, i) == Responders(p.responseBodyIndex, i, |rs|) + Finish(p, env, rs)
    decreases |rs| - i
  {
    if i < |rs| {
      RespondAllSucceed(p, env, rs, i + 1);
    }
  }

  lemma {:induction false} RespondFirstFailure(p: Info, env: Env, rs: seq<Output>, i: nat, j: nat)
    requires -1 <= p.responseBodyIndex < |rs| && i <= j < |rs| && j != p.responseBodyIndex
    requires forall k :: i <= k < j && k != p.responseBodyIndex ==> env.toResponse(k, rs[k]).None?
    requires env.toResponse(j, rs[j]).Some?
    ensures RespondFrom(p, env, rs, i)
      == Responders(p.responseBodyIndex, i, j) + [ToResponse(j)] + ResponseError(env.toResponse(j, rs[j]).value)
    decreases j - i
  {
    if i < j {
      RespondFirstFailure(p, env, rs, i + 1, j);
    }
  }

  /** `ToResponse` ordering, success: once the error slot passes and every
      non-body result's `ToResponse` succeeds, each runs once, in ascending
      order, and then comes the body. */
  lemma ToResponseInOrder(p: Info, env: Env, results: seq<Output>)
    requires Conforms(p, results) && !(p.lastIsError && results[|results| - 1].ErrorOut?)
    requires var rs := Remaining(p, results);
      forall k :: 0 <= k < |rs| && k != p.responseBodyIndex ==> env.toResponse(k, rs[k]).None?
    ensures var rs := Remaining(p, results);
      AfterCall(p, env, results) == Responders(p.responseBodyIndex, 0, |rs|) + Finish(p, env, rs)
  {
    RespondAllSucceed(p, env, Remaining(p, results), 0);
  }

  /** `ToResponse` ordering, failure: when result `j` is the first whose
      `ToResponse` fails, the ones before it ran in order, and its error is
      answered through `ResponseError` with no body. */
  lemma ToResponseStopsAtFailure(p: Info, env: Env, results: seq<Output>, j: nat)
    requires Conforms(p, results) && !(p.lastIsError && results[|results| - 1].ErrorOut?)
    requires var rs := Remaining(p, results);
      j < |rs| && j != p.responseBodyIndex && env.toResponse(j, rs[j]).Some?
    requires var rs := Remaining(p, results);
      forall k :: 0 <= k < j && k != p.responseBodyIndex ==> env.toResponse(k, rs[k]).None?
    ensures var rs := Remaining(p, results);
      AfterCall(p, env, results)
        == Responders(p.responseBodyIndex, 0, j) + [ToResponse(j)] + ResponseError(env.toResponse(j, rs[j]).value)
  {
    RespondFirstFailure(p, env, Remaining(p, results), 0, j);
  }

  // ---------------------------------------------------------------------
  // The body

  /** The body is encoded from results `i` on exactly when there is a body
      result and every `ToResponse` from `i` on succeeds. */
  lemma {:induction false} RespondEncodesIff(p: Info, env: Env, rs: seq<Output>, i: nat)
    requires -1 <= p.responseBodyIndex < |rs| && i <= |rs|
    ensures Encoded(RespondFrom(p, env, rs, i))
      <==> p.responseBodyIndex != -1 &&
           forall k :: i <= k < |rs| && k != p.responseBodyIndex ==> env.toResponse(k, rs[k]).None?
    decreases |rs| - i
  {
    if i == |rs| {
      if p.responseBodyIndex != -1 {
        assert RespondFrom(p, env, rs, i)[0].EncodeBody?;
      }
    } else {
      RespondEncodesIff(p, env, rs, i + 1);
      if i != p.responseBodyIndex {
        match env.toResponse(i, rs[i])
        case Some(err) =>
          EncodedAppend([ToResponse(i)], ResponseError(err));
        case None =>
          EncodedAppend([ToResponse(i)], RespondFrom(p, env, rs, i + 1));
      }
    }
  }

  /** After the call, the body is encoded exactly when the error slot is
      empty, every `ToResponse` succeeds and there is a body result. */
  lemma AfterCallEncodesIff(p: Info, env: Env, results: seq<Output>)
    requires Conforms(p, results)
    ensures Encoded(AfterCall(p, env, results))
      <==> && (p.lastIsError ==> results[|results| - 1] == NilError)
           && p.responseBodyIndex != -1
           && forall k :: 0 <= k < |Remaining(p, results)| && k != p.responseBodyIndex ==>
                env.toResponse(k, Remaining(p, results)[k]).None?
  {
    if !(p.lastIsError && results[|results| - 1].ErrorOut?) {
      RespondEncodesIff(p, env, Remaining(p, results), 0);
    }
  }

  /** Everything the handler returns gets as far as the body only when the
      error slot is empty and every `ToResponse` succeeded. */
  ghost predicate ReachesBody(p: Info, env: Env)
    requires WellFormed(p) && HandlerConforms(p, env)
  {
    && BuildsBelow(p, env, p.inputCount)
    && var results := env.call(BuiltArgs(p, env));
       var rs := Remaining(p, results);
       && (p.lastIsError ==> results[|results| - 1] == NilError)
       && forall k :: 0 <= k < |rs| && k != p.responseBodyIndex ==> env.toResponse(k, rs[k]).None?
  }

  /** Body last: the body result is encoded if and only if there is one and
      the request got through the arguments, the error slot and every
      `ToResponse` call. */
  lemma BodyEncodedIff(p: Info, env: Env)
    requires WellFormed(p) && HandlerConforms(p, env)
    ensures Encoded(Serve(p, env)) <==> ReachesBody(p, env) && p.responseBodyIndex != -1
  {
    if BuildsBelow(p, env, p.inputCount) {
      ServeAllBuilt(p, env);
      var args := BuiltArgs(p, env);
      var a := Attempts(p, 0, p.inputCount) + [CallHandler(args)];
      EncodedAppend(a, AfterCall(p, env, env.call(args)));
      AfterCallEncodesIff(p, env, env.call(args));
    } else {
      BindFromAbortedIff(p, env, 0);
      var j :| 0 <= j < p.inputCount && BindArg(p, env, j).Rejected?;
      NoBodyAfterRejection(p, env, j);
    }
  }

  /** A request with a parameter that cannot be built never reaches the body. */
  lemma {:induction false} NoBodyAfterRejection(p: Info, env: Env, j: nat)
    requires WellFormed(p) && HandlerConforms(p, env) && j < p.inputCount && BindArg(p, env, j).Rejected?
    ensures !WroteResults(Serve(p, env))
    decreases j
  {
    if BuildsBelow(p, env, j) {
      ArgumentShortCircuit(p, env, j);
    } else {
      var k :| 0 <= k < j && BindArg(p, env, k).Rejected?;
      NoBodyAfterRejection(p, env, k);
    }
  }

  /** Body last, in detail: once the request reaches the body, the trace is
      the arguments, the call, every `ToResponse` in order and then the body;
      a successful encoding ends the request without any error response, and
      an encoder error is logged and answered with a bare 500. */
  lemma BodyLast(p: Info, env: Env)
    requires WellFormed(p) && HandlerConforms(p, env) && ReachesBody(p, env) && p.responseBodyIndex != -1
    ensures var args := BuiltArgs(p, env); var rs := Remaining(p, env.call(args));
      Serve(p, env) == Attempts(p, 0, p.inputCount) + [CallHandler(args)]
        + Responders(p.responseBodyIndex, 0, |rs|) + Finish(p, env, rs)
    ensures var rs := Remaining(p, env.call(BuiltArgs(p, env))); var body := rs[p.responseBodyIndex];
      env.encode(body).None? ==> Finish(p, env, rs) == [EncodeBody(body)] && NoError(Serve(p, env))
    ensures var rs := Remaining(p, env.call(BuiltArgs(p, env))); var body := rs[p.responseBodyIndex];
      env.encode(body).Some? ==>
        Finish(p, env, rs) == [EncodeBody(body), LogError(env.encode(body).value), WriteError(StatusInternalServerError, "")]
  {
    ServeAllBuilt(p, env);
    var args := BuiltArgs(p, env);
    var rs := Remaining(p, env.call(args));
    RespondAllSucceed(p, env, rs, 0);
    RespondersAscending(p.responseBodyIndex, 0, |rs|);
    var t := Serve(p, env);
    var pre := Attempts(p, 0, p.inputCount) + [CallHandler(args)] + Responders(p.responseBodyIndex, 0, |rs|);
    if env.encode(rs[p.responseBodyIndex]).None? {
      assert t == pre + [EncodeBody(rs[p.responseBodyIndex])];
      forall k | 0 <= k < |t| ensures !t[k].WriteError? {
        if k < |pre| {
          assert t[k] == pre[k];
          if k >= p.inputCount + 1 {
            assert pre[k] in Responders(p.responseBodyIndex, 0, |rs|);
          }
        }
      }
    }
  }
}
