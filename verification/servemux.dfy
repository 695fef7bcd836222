/** `ServeMux.Handle` (plumbus.go:43-52): registers a route with the path
    router and, through a deferred `recover`, re-raises a panic of the
    registration with the route named in its message. The path router itself
    is not part of this model: what it does is the `inner` completion. */
module Mux {
  import opened Adaptors
  import Protocol
  import Plan

  /** How a call ends: normally, or with a panic unwinding out of it. */
  datatype Completion = Returned | Panicking(value: PanicValue)

  /** The message of a re-raised registration panic. */
  function RouteMessage(route: string, text: string): (m: string)
    ensures |m| == |"Error while routing "| + |route| + 2 + |text|
    ensures m[..|"Error while routing "|] == "Error while routing "
    ensures m[|"Error while routing "|..|"Error while routing "| + |route|] == route
    ensures m[|"Error while routing "| + |route|..] == ": " + text
  {
    "Error while routing " + route + ": " + text
  }

  /** `ServeMux.Handle` as written: `recover()` hands back the panic value
      (nil when there was none), and only a value that is an `error` is
      re-raised; anything else is dropped and `Handle` returns normally. */
  function HandleAsWritten(route: string, inner: Completion): (c: Completion)
    ensures c.Panicking? <==> inner.Panicking? && inner.value.ErrorPanic?
    ensures c.Panicking? ==> c.value == ErrorPanic(RouteMessage(route, inner.value.text))
  {
    match inner
    case Returned => Returned
    case Panicking(ErrorPanic(text)) => Panicking(ErrorPanic(RouteMessage(route, text)))
    case Panicking(OtherPanic(_)) => Returned
  }

  /** As written, a registration that panics with a non-error value, such as
      the string `HandlerFunc` panics with on a non-function, is treated as a
      success. */
  lemma NonFunctionPanicIsLost(route: string, h: HandlerValue, t: AdaptorTable,
                               collect: TypeId -> Protocol.Result<Plan.Info, string>)
    requires h.typ.kind.NotFunc? && !h.typ.isHandler
    ensures HandlerFunc(t, h, collect).served.Panicked?
    ensures HandleAsWritten(route, Panicking(HandlerFunc(t, h, collect).served.value)) == Returned
  {
  }

  /** `ServeMux.Handle` as evidently intended: every registration panic is
      re-raised, as an `error` naming the route, whatever the panic value. */
  function Handle(route: string, inner: Completion): (c: Completion)
    ensures c.Panicking? <==> inner.Panicking?
    ensures c.Panicking? ==> c.value == ErrorPanic(RouteMessage(route, inner.value.text))
  {
    match inner
    case Returned => Returned
    case Panicking(v) => Panicking(ErrorPanic(RouteMessage(route, v.text)))
  }

  /** The corrected `Handle` fails registration whenever `HandlerFunc` would,
      naming the route, and agrees with the written one on `error` panics. */
  lemma HandleKeepsEveryPanic(route: string, h: HandlerValue, t: AdaptorTable,
                              collect: TypeId -> Protocol.Result<Plan.Info, string>)
    requires HandlerFunc(t, h, collect).served.Panicked?
    ensures var v := HandlerFunc(t, h, collect).served.value;
      Handle(route, Panicking(v)) == Panicking(ErrorPanic(RouteMessage(route, v.text)))
    ensures var v := HandlerFunc(t, h, collect).served.value;
      v.ErrorPanic? ==> Handle(route, Panicking(v)) == HandleAsWritten(route, Panicking(v))
  {
  }

  /** Registering a function whose type has a nil adaptor fails: the nil
      call's runtime error is an `error`, so even the written `Handle`
      re-raises it with the route named. */
  lemma NilAdaptorReRaised(route: string, h: HandlerValue, t: AdaptorTable,
                           collect: TypeId -> Protocol.Result<Plan.Info, string>)
    requires Classify(h.typ) == Reflect
    ensures var r := HandlerFunc(RegisterAdaptor(t, h.typ.id, NilAdaptor), h, collect);
      r.served.Panicked?
      && HandleAsWritten(route, Panicking(r.served.value))
         == Panicking(ErrorPanic(RouteMessage(route, NilCallMessage)))
  {
    NilAdaptorRegistered(t, h, collect);
  }
}
