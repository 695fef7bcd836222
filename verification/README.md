# plumbus: dynamic dispatch and the adaptor cache, in Dafny

plumbus turns ordinary Go functions into HTTP handlers. This project models
two pieces of `plumbus.go`:

1. **The per-request pipeline** of a reflectively adapted handler
   (`infoToDynamicAdaptor`), together with the error-to-status mapping
   (`ResponseError`). Given an execution plan (`generate.Info`: parameter
   count, request body index, pointer flags, trailing-error flag, response
   body index), the pipeline does the following:
   - builds every argument in index order, from the JSON body or through `FromRequest`;
   - stops at the first failure;
   - calls the handler and checks the trailing `error` first;
   - runs `ToResponse` on every other non-body result;
   - encodes the body result last.

   Here the pipeline is the pure function `Dispatch.Serve`. It maps a plan and
   the outcomes of the delegated steps (`Plan.Env`) to a trace of events
   (`Responses.Event`): argument starts, the call, `ToResponse` calls, the
   body encoding, log lines and `http.Error` responses. The delegated steps
   are JSON decoding, `FromRequest`, the handler, `ToResponse` and JSON
   encoding. `FromRequest` and `ToResponse` outcomes are indexed by position,
   since they may depend on the request and on what was already written.
2. **`HandlerFunc` and the adaptor table.** `HandlerFunc` classifies a value
   with a type switch: raw handler function, `http.Handler`, `ByMethod`,
   `*ByMethod`, other function, or non-function. Only other functions go
   through the process-wide `adaptors` map. An entry installed by
   `RegisterAdaptor` is used as it is; a missing entry is filled at first use
   with `makeDynamicAdaptor`. The map is `Adaptors.AdaptorTable` (nil or a
   `map`), and every operation on it is a pure function that returns the new
   table.

`ServeMux.Handle` is modelled only for its panic handling (`Mux`), since the
path router it delegates to is not part of this model.

Modules: `Protocol` (values, errors, arguments, results), `Responses`
(events, `ResponseError`, trace predicates), `Plan` (the plan and the
delegated outcomes), `Dispatch` (the pipeline), `DispatchLemmas` (its
properties), `Adaptors` (classification and the table), `Mux`
(`ServeMux.Handle`), `Scenarios` (the cases of `plumbus_test.go`).

Three behaviours of the code worth noting:
- A `FromRequest` failure goes through `ResponseError` (plumbus.go:137,
  143). The status is the error's own code for an `HTTPError` and 500 for any
  other error; the dispatcher itself chooses 400 only for a body decoding
  failure (plumbus.go:130).
- A non-body pointer parameter (plumbus.go:133-134) is always allocated and
  populated. The body parameter holds whatever the decoder leaves, which is a
  nil pointer for a JSON `null` when the parameter is itself a pointer.
- The table caches the adaptor closure, not the plan. `generate.CollectInfo`
  runs inside the closure, once per `HandlerFunc` call on a function type
  served by its dynamic adaptor (once per registration, never per request). What is built at most once per
  type is the dynamic adaptor (`Adaptors.HandleAll`). The table is keyed by
  type identity (`reflect.Type`), not by how a type prints, so distinct
  types that print alike get separate entries (`Adaptors.AlikeNamesKeptApart`).

## Model

| member | source | states |
|---|---|---|
| Responses.ResponseError | plumbus.go:111-118 | An `HTTPError` gets exactly one response carrying its own code and its own text. Any other error is logged with its text and answered with 500 and an empty body. Either way the error response is the last event. |
| Responses.PlainErrorsLookAlike | plumbus.go:114-116 | Two plain errors with different texts produce the same client response, so a plain error's text never reaches the client. |
| Plan.Remaining | plumbus.go:151-153 | With an error slot, the results processed afterwards are the results minus the last one. Otherwise they are all the results. The kept results stay at their original indices. |
| Dispatch.BindArg | plumbus.go:124-147 | The body parameter builds exactly when decoding succeeds, as the decoded value; otherwise the answer is 400 with "error decoding json: " and the decoder's text. Any other parameter builds exactly when `FromRequest` succeeds, as a pointer to the populated value or the value itself according to its pointer flag; otherwise the answer is `ResponseError` of its error. |
| Dispatch.BindArgRejection | plumbus.go:123-147 | A parameter that cannot be built yields exactly one error response, as its last event. It contains no handler call and no result writing. |
| Dispatch.BindFrom | plumbus.go:122-148 | Binding from index `i` either yields one argument per remaining parameter or ends with an error response. |
| Dispatch.BindFromOrdered | plumbus.go:122-148 | Binding only starts parameters until an error response ends it. Any error response is the last event. |
| Dispatch.Finish | plumbus.go:173-181 | Nothing is written when the plan has no body result. Otherwise the body result is encoded first, and at most one error response follows it. |
| Dispatch.RespondFrom | plumbus.go:161-171 | Every `ToResponse` runs on a result index from `i` up to the number of remaining results. |
| Dispatch.RespondFromOrdered | plumbus.go:161-181 | Writing the results goes `ToResponse` calls, then the body, then at most one error response, never back to an earlier stage. |
| Dispatch.AfterCall | plumbus.go:151-159 | A non-nil trailing error is answered with `ResponseError` and nothing else. |
| Dispatch.AfterCallOrdered | plumbus.go:151-181 | After the call, the stages never go backwards, and any error response is the last event. |
| Dispatch.Serve | plumbus.go:120-183 | A request's trace never returns to an earlier stage (binding, call, `ToResponse`, body, error). It writes at most one error response, as its last event. |
| DispatchLemmas.BindFromAllBuilt | plumbus.go:122-148 | When every parameter builds, binding starts each parameter once in ascending order. The k-th argument is the one built for parameter k. |
| DispatchLemmas.BindFromFirstRejection | plumbus.go:122-148 | When parameter j is the first that fails, binding is the starts of parameters up to j followed by j's error response. |
| DispatchLemmas.BindFromAbortedIff | plumbus.go:122-148 | Binding aborts exactly when some parameter fails. |
| DispatchLemmas.ArgumentShortCircuit | plumbus.go:122-149 | If parameter j is the first to fail, the trace holds the starts of parameters 0..j in order and exactly one error response. No parameter after j is started, the handler is not called, and no result is written. |
| DispatchLemmas.BodyDecodeFailure | plumbus.go:125-132 | A body the decoder rejects gets 400 with `error decoding json: ` and the decoder's message. It does not go through `ResponseError`, so nothing is logged. |
| DispatchLemmas.ExtractFailure | plumbus.go:133-146 | A `FromRequest` failure, for a pointer or a value parameter, is answered through `ResponseError`. |
| DispatchLemmas.HandlerCalledIff | plumbus.go:122-149 | The handler is called if and only if every parameter builds. |
| DispatchLemmas.FirstRejection | plumbus.go:122-149 | Any failing parameter keeps the handler from being called. |
| DispatchLemmas.ServeAllBuilt | plumbus.go:122-150 | When every parameter builds, the trace is the parameter starts in order, the call with the built arguments, and then the after-call trace. |
| DispatchLemmas.HandlerReceivesBuiltArgs | plumbus.go:122-149 | The handler gets the decoded body at the body index. A pointer parameter gets a pointer to the value `FromRequest` populated, and a value parameter gets that value itself. The call follows all parameter starts. |
| DispatchLemmas.ErrorSlotFirst | plumbus.go:151-159 | A non-nil trailing error is answered through `ResponseError` right after the call. No `ToResponse` runs and no body is encoded. |
| DispatchLemmas.NilErrorDropped | plumbus.go:151-159 | A nil trailing error is dropped. What follows equals what a plan without an error slot does with the other results, at the same indices. |
| DispatchLemmas.RespondFromOnlyReadsBodyIndex | plumbus.go:161-181 | Writing the results depends on the plan only through the response body index. |
| DispatchLemmas.RespondersAscending | plumbus.go:161-165 | The reference `ToResponse` sequence names every result index except the body index once, in ascending order. |
| DispatchLemmas.RespondAllSucceed | plumbus.go:161-181 | When every `ToResponse` succeeds, the trace is exactly the reference `ToResponse` sequence followed by the body. |
| DispatchLemmas.RespondFirstFailure | plumbus.go:161-171 | When result j's `ToResponse` is the first to fail, the trace is the reference sequence before j, then `ToResponse(j)`, then `ResponseError` of its error. |
| DispatchLemmas.ToResponseInOrder | plumbus.go:161-181 | Once the error slot passes and every `ToResponse` succeeds, `ToResponse` runs on every non-body result in ascending order and then the body follows. |
| DispatchLemmas.ToResponseStopsAtFailure | plumbus.go:161-171 | Once the error slot passes, if result j is the first whose `ToResponse` fails, the earlier ones ran in ascending order, j's error is answered through `ResponseError`, and the body is never encoded. |
| DispatchLemmas.RespondEncodesIff | plumbus.go:161-181 | The body is encoded exactly when there is a body result and every `ToResponse` succeeds. |
| DispatchLemmas.AfterCallEncodesIff | plumbus.go:151-181 | After the call, the body is encoded exactly when the error slot is nil or absent, there is a body result, and every `ToResponse` succeeds. |
| DispatchLemmas.BodyEncodedIff | plumbus.go:120-183 | The body is encoded if and only if every parameter builds, the error slot is nil or absent, every `ToResponse` succeeds, and the body index is not -1. |
| DispatchLemmas.NoBodyAfterRejection | plumbus.go:122-149 | A request with a failing parameter never runs `ToResponse` and never encodes a body. |
| DispatchLemmas.BodyLast | plumbus.go:161-181 | Once the body is reached, the trace is: parameter starts, call, every `ToResponse` in order, then the body. A successful encoding ends the request with no error response. An encoder error is logged and answered with 500 and an empty body. |
| Adaptors.Classify | plumbus.go:55-72 | The first matching case of the type switch wins. The reflective path is taken exactly for function types that are neither the raw handler function type nor `http.Handler`s. Rejection happens exactly for non-functions that are not `http.Handler`s. |
| Adaptors.RegisterAdaptor | plumbus.go:26-31 | Allocates a nil table and sets exactly the entry for `typ`. Every other key keeps its entry, and the keys gain just `typ`. |
| Adaptors.ApplyAdaptor | plumbus.go:87-98 | A dynamic adaptor applied to a handler of another type panics with the mismatch `error`. On a handler of its own type, it serves the handler through the per-request pipeline with the collected plan when collection succeeds, and panics with the collector's error when it fails. A generated adaptor is used as it is. A nil adaptor panics with the Go runtime's nil-call `error`. |
| Adaptors.MakeDynamicAdaptorServes | plumbus.go:87-99 | The adaptor `makeDynamicAdaptor` builds for a type serves a value of that type with its collected plan, panics with the collector's error when there is none, and panics with the mismatch error on a value of any other type. |
| Adaptors.HandlerFunc | plumbus.go:54-85 | Raw functions, `http.Handler`s and `ByMethod` values leave the table unchanged. A non-function panics with a string. After a function type, the table contains that type, and the handler comes from its entry. The slow path is taken exactly when the entry was missing, and it stores the dynamic adaptor. Existing entries and other keys never change. |
| Adaptors.HandlerFuncTable | plumbus.go:74-83 | One `HandlerFunc` call adds the dynamic adaptor for the value's type exactly when it takes the slow path, and every other lookup in the table stays the same. |
| Adaptors.AlikeNamesKeptApart | plumbus.go:74-83 | Two distinct function types that print alike, neither in the table, each take the slow path and get their own dynamic adaptor: the table is keyed by type identity, not by printed name. |
| Adaptors.HandlerFuncIdempotent | plumbus.go:74-84 | A second `HandlerFunc` on the same value leaves the table as it is and yields the same handler without the slow path. |
| Adaptors.RegisteredAdaptorWins | plumbus.go:74-84 | After `RegisterAdaptor` for a function type, `HandlerFunc` uses that adaptor and builds no dynamic one. |
| Adaptors.NilAdaptorRegistered | plumbus.go:74-84 | A nil adaptor registered for a function type is a table entry like any other. `HandlerFunc` takes no slow path, leaves the nil entry in place, and calling it panics with the runtime's `error`. |
| Adaptors.FunctionTypesBeforeIff | plumbus.go:74-83 | A type is among the function types seen before position n exactly when one of the first n values is a function of that type. |
| Adaptors.HandleAll | plumbus.go:74-83 | Across a run of `HandlerFunc` calls on one table, call i takes the slow path exactly when its value is a function whose type had no entry at the start and appeared in no earlier value. The types built are exactly those calls' types, in order. The final table gives each such type its dynamic adaptor and is the starting table everywhere else. Every function value is served by its type's starting entry, or else by its dynamic adaptor. |
| Adaptors.MarkedTypesOnce | plumbus.go:74-83 | The types of the slow-path calls are distinct, had no entry at the start, and are function types of the values handled: each type is built a dynamic adaptor at most once. |
| Mux.RouteMessage | plumbus.go:47 | A re-raised registration panic's message is `Error while routing `, then the route, then `: `, then the inner error's text. |
| Mux.NilAdaptorReRaised | plumbus.go:43-52 | Registering a function whose type has a nil adaptor fails, even with `Handle` as written: the nil call's runtime error is an `error`, so it is re-raised with the route named. |
| Mux.HandleAsWritten | plumbus.go:43-52 | As written, `Handle` re-raises a panic only if its value is an `error`, naming the route. A panic with any other value is swallowed. |
| Mux.NonFunctionPanicIsLost | plumbus.go:44-49 | The string panic `HandlerFunc` raises on a non-function makes the as-written `Handle` return normally. |
| Mux.Handle | plumbus.go:43-52 | Corrected `Handle`: it panics exactly when the registration panics, with an `error` naming the route. |
| Mux.HandleKeepsEveryPanic | plumbus.go:43-52 | The corrected `Handle` re-raises every `HandlerFunc` panic, and agrees with the as-written one on `error` panics. |
| Scenarios.ReturnStruct | plumbus_test.go:11-40 | `func() Result`: the handler is called and its result is encoded as the body, with no error response. |
| Scenarios.ReturnError | plumbus_test.go:42-58 | `func() (string, error)` returning an `HTTPError`: the response carries the error's code and text, and the string result is not encoded. |
| Scenarios.RequestBody | plumbus_test.go:60-87 | `func(body *Body)`: the handler receives what the decoder produced. |
| Scenarios.RequestParam | plumbus_test.go:96-117 | `func(p1 Param, p2 *Param)`: both parameters are populated by `FromRequest`. The first is passed by value, the second as a pointer to the populated value. |

## Findings

| source | as written | input that shows it | evidently intended | confidence | as-written member | corrected member |
|---|---|---|---|---|---|---|
| plumbus.go:44-49 | The deferred `recover` re-raises only panic values that are `error`s. Any other value is recovered and dropped, and `Handle` returns as if the route had been registered. | A registration whose path-router call panics with a string, such as the panic `HandlerFunc` raises on a non-function (plumbus.go:68-71). | Every registration panic is re-raised as an error naming the route. | medium (the path router's use of `HandlerFunc` is not visible); not executed | Mux.HandleAsWritten | Mux.Handle |

## Left out

- The path router `Paths`, `NewServeMux` and `ByMethod.compile` are not part of this model. `Mux` takes the router's outcome as a parameter, and `HandlerFunc` records only that it delegates to `compile`.
- `generate.CollectInfo` is not part of this model. It is the `collect` parameter of `Adaptors.ApplyAdaptor`. The plans it returns are assumed well-formed, and the handler's results are assumed to match the plan (`Plan.HandlerConforms`). Without that, the Go code would panic on a type assertion or an index.
- Go reflection (`reflect.New`, `Call`, type assertions) is not modelled. Values are opaque, and a handler is a function from arguments to results.
- JSON decoding and encoding, and the `net/http` response writer, are external libraries and are modelled as oracles. `WriteError` records the status and text passed to `http.Error`, not its headers or its trailing newline.
- The response writer's state is not modelled. `ToResponse` of result i is an oracle indexed by i, so equal results at different positions may have different outcomes, as writes in between can make them differ.
- A partial write is not modelled: a `ToResponse` that writes before it fails, or an `http.Error` after the body has started, is still recorded as a `WriteError` event, not as what the client finally sees.
- Logging is modelled only as `LogError` carrying the error's text. `printRequestError`'s request method and path, the `json encoding error: ` prefix, and the slow-path `WARNING`/`NOTE` lines (recorded as `slowPath`) are not modelled.
- Adaptors.ApplyAdaptor: a registered (generated) adaptor is assumed to return a handler and never to panic, because its code is generated outside the core. So the contract's "every panic is an `error`" covers only the dynamic and nil adaptors.
- A nil handler value (`reflect.TypeOf(nil)`) is not modelled: calling `Kind` on it panics at run time, and every modelled value has a type.
- Concurrency of the unguarded global `adaptors` map is not modelled: the table is a value passed from call to call.
- Handler panics, and how `net/http` recovers them, are not modelled.
- The optional-parameter nil behaviour and the required-query-parameter conversion (plumbus_test.go:187-291) are not modelled: they depend on generated code that is not part of this model.
- The example handlers (example/handlers/handlers.go) are not modelled: they are business logic, not part of the core.
