/** The execution plan of one handler signature (`generate.Info`) and the
    outcomes of everything outside the dispatcher that a request depends on. */
module Plan {
  import opened Protocol

  /** What the dispatcher needs to know about a handler's signature. It is
      computed once from the handler's type, outside this model. */
  datatype Info = Info(
    inputCount: nat,         // number of parameters
    requestBodyIndex: int,   // the parameter decoded from the JSON request body; -1 for none
    isPointer: seq<bool>,    // per parameter: whether its type is a pointer
    lastIsError: bool,       // whether the last result is an `error`
    responseBodyIndex: int)  // the result JSON-encoded as the response body, counted
                             // without the trailing error; -1 for none

  /** The dispatcher reads `isPointer` at every parameter index. */
  predicate WellFormed(p: Info) {
    |p.isPointer| == p.inputCount
  }

  /** The outcomes, for one request, of every step the dispatcher delegates. */
  datatype Env = Env(
    decode: Result<Value, string>,            // decoding the body into the body parameter, or the decoder's error text
    fromRequest: nat -> Result<Value, Error>, // `FromRequest` on a fresh value of parameter i
    call: seq<Arg> -> seq<Output>,            // the handler itself
    toResponse: (nat, Output) -> Option<Error>, // `ToResponse` of result i: nil or an error; it may depend on
                                                // what was written before it, so it is indexed by position
    encode: Output -> Option<string>)         // encoding the body result: nil or the encoder's error text

  /** The results the dispatcher goes on to process once the trailing error
      slot, if the plan has one, has been cut off. */
  function Remaining(p: Info, results: seq<Output>): (rs: seq<Output>)
    requires p.lastIsError ==> |results| > 0
    ensures |rs| == if p.lastIsError then |results| - 1 else |results|
    ensures rs == results[..|rs|]
  {
    if p.lastIsError then results[..|results| - 1] else results
  }

  /** The handler's results have the shape the plan was built from: a trailing
      `error` when the plan says so, and a response body index that names one
      of the remaining results. */
  predicate Conforms(p: Info, results: seq<Output>) {
    if p.lastIsError then
      |results| > 0 && !results[|results| - 1].Data? && -1 <= p.responseBodyIndex < |results| - 1
    else
      -1 <= p.responseBodyIndex < |results|
  }

  /** Whatever it is called with, the handler returns results that conform. */
  ghost predicate HandlerConforms(p: Info, env: Env) {
    forall args :: Conforms(p, env.call(args))
  }
}
