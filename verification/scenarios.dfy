/** The request-handling cases the repository's own tests exercise
    (plumbus_test.go), replayed on the model of the pipeline. */
module Scenarios {
  import opened Protocol
  import opened Responses
  import opened Plan
  import opened Dispatch

  /** `func() Result`: no parameters, one result, which is the body. */
  lemma ReturnStruct(env: Env, message: Value)
    requires forall args :: env.call(args) == [Data(message)]
    requires env.encode(Data(message)).None?
    ensures var p := Info(0, -1, [], false, 0);
      Serve(p, env) == [CallHandler([]), EncodeBody(Data(message))] && NoError(Serve(p, env))
  {
    var p := Info(0, -1, [], false, 0);
    assert HandlerConforms(p, env);
    assert BindFrom(p, env, 0) == AllBuilt([], []);
    var rs := [Data(message)];
    assert RespondFrom(p, env, rs, 1) == [EncodeBody(Data(message))];
    assert AfterCall(p, env, env.call([])) == RespondFrom(p, env, rs, 0);
  }

  /** `func() (string, error)` returning an `HTTPError` with status 400:
      the response is 400 with the error's text, and the string result is
      never encoded. */
  lemma ReturnError(env: Env, body: Value, code: int, text: string)
    requires forall args :: env.call(args) == [Data(body), ErrorOut(StatusError(code, text))]
    ensures var p := Info(0, -1, [], true, 0);
      Serve(p, env) == [CallHandler([]), WriteError(code, text)] && !Encoded(Serve(p, env))
  {
    var p := Info(0, -1, [], true, 0);
    assert HandlerConforms(p, env);
    assert BindFrom(p, env, 0) == AllBuilt([], []);
  }

  /** `func(body *Body)`: the single parameter is the body; the handler
      receives what the decoder produced. */
  lemma RequestBody(env: Env, decoded: Value)
    requires forall args :: env.call(args) == []
    requires env.decode == Ok(decoded)
    ensures var p := Info(1, 0, [true], false, -1);
      Serve(p, env) == [DecodeBody(0), CallHandler([Val(decoded)])]
  {
    var p := Info(1, 0, [true], false, -1);
    assert HandlerConforms(p, env);
    assert BindFrom(p, env, 1) == AllBuilt([], []);
    assert BindFrom(p, env, 0) == AllBuilt([Val(decoded)], [DecodeBody(0)]);
  }

  /** `func(p1 Param, p2 *Param)` with `?param=awesome`: both parameters are
      populated by `FromRequest`; the first is passed by value, the second as
      a pointer to the populated value. */
  lemma RequestParam(env: Env, param: Value)
    requires forall args :: env.call(args) == []
    requires forall i :: env.fromRequest(i) == Ok(param)
    ensures var p := Info(2, -1, [false, true], false, -1);
      Serve(p, env) == [Extract(0), Extract(1), CallHandler([Val(param), Ptr(param)])]
  {
    var p := Info(2, -1, [false, true], false, -1);
    assert HandlerConforms(p, env);
    assert BindFrom(p, env, 2) == AllBuilt([], []);
    assert BindFrom(p, env, 1) == AllBuilt([Ptr(param)], [Extract(1)]);
    assert BindFrom(p, env, 0) == AllBuilt([Val(param), Ptr(param)], [Extract(0), Extract(1)]);
  }
}
