/** Turning any value into an `http.Handler` (`HandlerFunc`,
    plumbus.go:54-85), and the process-wide table of adaptors it keeps per
    function type (`adaptors`, `RegisterAdaptor`, `makeDynamicAdaptor`,
    plumbus.go:18-31 and 87-99). */
module Adaptors {
  import opened Protocol
  import Plan

  /** The identity of a Go type (a `reflect.Type`): two types are the same
      exactly when their identities are equal, however they print. */
  type TypeId = int

  /** The shapes of dynamic type `HandlerFunc` tells apart. */
  datatype Kind =
    | RawHandlerFunc    // exactly `func(http.ResponseWriter, *http.Request)`
    | ByMethodStruct    // `ByMethod`
    | ByMethodPointer   // `*ByMethod`
    | OtherFunc         // any other function type
    | NotFunc           // anything that is not a function

  /** A dynamic type: its identity, how `%v` prints it (distinct types, such
      as two function-local types of one name, can print alike), its shape,
      and whether it has a `ServeHTTP` method (implements `http.Handler`). */
  datatype TypeDesc = TypeDesc(id: TypeId, name: string, kind: Kind, isHandler: bool)

  /** A value handed to `HandlerFunc`; `tag` tells values of one type apart. */
  datatype HandlerValue = HandlerValue(typ: TypeDesc, tag: string)

  /** The branch `HandlerFunc` takes for a value. */
  datatype Branch = UseRawFunc | UseHandler | CompileByMethod | Reflect | Reject

  /** An entry of the adaptor table: one installed with `RegisterAdaptor`
      (typically generated code, which this model does not see into), a nil
      `adaptorFunc`, which `RegisterAdaptor` accepts like any other, or the
      reflective adaptor `makeDynamicAdaptor` made for a type. */
  datatype Adaptor = Generated(name: string) | NilAdaptor | Dynamic(typ: TypeId)

  /** The `adaptors` map: nil until the first write, then a map. */
  datatype AdaptorTable = NilTable | Table(entries: map<TypeId, Adaptor>)

  /** A Go panic value: an `error`, or anything else (such as a string). */
  datatype PanicValue = ErrorPanic(text: string) | OtherPanic(text: string)

  /** The handler `HandlerFunc` returns, or the panic it raises instead. */
  datatype Served =
    | ServeFunc(h: HandlerValue)                // `http.HandlerFunc(val)`
    | ServeAsIs(h: HandlerValue)                // the value itself, as an `http.Handler`
    | ServeCompiled(methods: HandlerValue)      // `val.compile()`, not part of this model
    | ServeGenerated(adaptor: string, h: HandlerValue)
    | ServeDynamic(info: Plan.Info, h: HandlerValue) // `infoToDynamicAdaptor(info, val)`
    | Panicked(value: PanicValue)

  /** The result of one `HandlerFunc` call: the table afterwards, the handler,
      and whether the slow reflection path was taken (and warned about). */
  datatype Registration = Registration(table: AdaptorTable, served: Served, slowPath: bool)

  /** Reading a nil map finds nothing. */
  function Lookup(t: AdaptorTable, typ: TypeId): Option<Adaptor> {
    match t
    case NilTable => None
    case Table(m) => if typ in m then Some(m[typ]) else None
  }

  /** The type switch of `HandlerFunc`: the first case that matches wins. */
  function Classify(t: TypeDesc): (b: Branch)
    ensures b == UseRawFunc <==> t.kind.RawHandlerFunc?
    ensures b == UseHandler <==> !t.kind.RawHandlerFunc? && t.isHandler
    ensures b == CompileByMethod <==> (t.kind.ByMethodStruct? || t.kind.ByMethodPointer?) && !t.isHandler
    ensures b == Reflect <==> t.kind.OtherFunc? && !t.isHandler
    ensures b == Reject <==> t.kind.NotFunc? && !t.isHandler
  {
    if t.kind.RawHandlerFunc? then UseRawFunc
    else if t.isHandler then UseHandler
    else if t.kind.ByMethodStruct? || t.kind.ByMethodPointer? then CompileByMethod
    else if t.kind.OtherFunc? then Reflect
    else Reject
  }

  /** `RegisterAdaptor`: allocates the table if it is nil, then sets the entry
      for `typ`, overwriting any earlier one; no other entry changes. */
  function RegisterAdaptor(t: AdaptorTable, typ: TypeId, a: Adaptor): (r: AdaptorTable)
    ensures r.Table?
    ensures Lookup(r, typ) == Some(a)
    ensures forall k :: k != typ ==> Lookup(r, k) == Lookup(t, k)
    ensures r.entries.Keys == (if t.Table? then t.entries.Keys else {}) + {typ}
  {
    match t
    case NilTable => Table(map[typ := a])
    case Table(m) => Table(m[typ := a])
  }

  /** `makeDynamicAdaptor`: the reflective adaptor for a type. What it does
      when applied is `ApplyAdaptor`'s `Dynamic` case. */
  function MakeDynamicAdaptor(typ: TypeId): Adaptor
  {
    Dynamic(typ)
  }

  /** The panic message of a dynamic adaptor applied to a value of another type. */
  const MismatchMessage := "internal plumbus error. Mismatch of types."

  /** The message of the Go runtime error (an `error` value) raised by
      calling a nil function. */
  const NilCallMessage := "runtime error: invalid memory address or nil pointer dereference"

  /** Applying an adaptor to a handler. A dynamic adaptor panics (with an
      `error`) on a handler of another type, collects the plan of its type
      (`collect` stands for `generate.CollectInfo`, outside this model) and
      panics with its error if that fails, and otherwise serves through the
      per-request pipeline. */
  function ApplyAdaptor(a: Adaptor, h: HandlerValue, collect: TypeId -> Result<Plan.Info, string>): (s: Served)
    ensures s.Panicked? ==> s.value.ErrorPanic?
    ensures s.ServeDynamic? ==> a == Dynamic(h.typ.id) && collect(h.typ.id) == Ok(s.info) && s.h == h
    ensures a.Dynamic? && a.typ != h.typ.id ==> s == Panicked(ErrorPanic(MismatchMessage))
    ensures a == Dynamic(h.typ.id) && collect(h.typ.id).Ok? ==> s == ServeDynamic(collect(h.typ.id).value, h)
    ensures a == Dynamic(h.typ.id) && collect(h.typ.id).Fail? ==> s == Panicked(ErrorPanic(collect(h.typ.id).error))
    ensures a.Generated? ==> s == ServeGenerated(a.name, h)
    ensures a.NilAdaptor? ==> s == Panicked(ErrorPanic(NilCallMessage))
  {
    match a
    case Generated(name) => ServeGenerated(name, h)
    case NilAdaptor => Panicked(ErrorPanic(NilCallMessage))
    case Dynamic(typ) =>
      if typ != h.typ.id then Panicked(ErrorPanic(MismatchMessage))
      else
        match collect(typ)
        case Fail(msg) => Panicked(ErrorPanic(msg))
        case Ok(info) => ServeDynamic(info, h)
  }

  /** `HandlerFunc`. Raw handler functions, `http.Handler`s and `ByMethod`
      values are served without touching the table; a non-function panics with
      a string. A function type reuses its table entry when there is one;
      otherwise it takes the slow path: it builds the dynamic adaptor and
      stores it (the same store `RegisterAdaptor` makes). Either way the
      adaptor is applied to the value at once. */
  function HandlerFunc(t: AdaptorTable, h: HandlerValue, collect: TypeId -> Result<Plan.Info, string>): (r: Registration)
    ensures Classify(h.typ) != Reflect ==> r.table == t && !r.slowPath
    ensures Classify(h.typ) == UseRawFunc ==> r.served == ServeFunc(h)
    ensures Classify(h.typ) == UseHandler ==> r.served == ServeAsIs(h)
    ensures Classify(h.typ) == CompileByMethod ==> r.served == ServeCompiled(h)
    ensures Classify(h.typ) == Reject ==>
      r.served == Panicked(OtherPanic("plumbus.HandlerFunc called on non-function type " + h.typ.name))
    ensures Classify(h.typ) == Reflect ==> Lookup(r.table, h.typ.id).Some?
    ensures Classify(h.typ) == Reflect ==> r.served == ApplyAdaptor(Lookup(r.table, h.typ.id).value, h, collect)
    ensures r.slowPath <==> Classify(h.typ) == Reflect && Lookup(t, h.typ.id).None?
    ensures r.slowPath ==> Lookup(r.table, h.typ.id) == Some(Dynamic(h.typ.id))
    ensures forall k :: k != h.typ.id ==> Lookup(r.table, k) == Lookup(t, k)
    ensures forall k :: Lookup(t, k).Some? ==> Lookup(r.table, k) == Lookup(t, k)
  {
    match Classify(h.typ)
    case UseRawFunc => Registration(t, ServeFunc(h), false)
    case UseHandler => Registration(t, ServeAsIs(h), false)
    case CompileByMethod => Registration(t, ServeCompiled(h), false)
    case Reject =>
      Registration(t, Panicked(OtherPanic("plumbus.HandlerFunc called on non-function type " + h.typ.name)), false)
    case Reflect =>
      match Lookup(t, h.typ.id)
      case Some(a) => Registration(t, ApplyAdaptor(a, h, collect), false)
      case None =>
        var a := MakeDynamicAdaptor(h.typ.id);
        Registration(RegisterAdaptor(t, h.typ.id, a), ApplyAdaptor(a, h, collect), true)
  }

  /** The adaptor `makeDynamicAdaptor` builds for `typ` serves a value of that
      type through the per-request pipeline with the collected plan, panics
      with the collector's error when there is no plan, and panics with the
      mismatch error on a value of any other type. */
  lemma MakeDynamicAdaptorServes(typ: TypeId, h: HandlerValue, collect: TypeId -> Result<Plan.Info, string>)
    ensures var s := ApplyAdaptor(MakeDynamicAdaptor(typ), h, collect);
      && (h.typ.id != typ ==> s == Panicked(ErrorPanic(MismatchMessage)))
      && (h.typ.id == typ && collect(typ).Ok? ==> s == ServeDynamic(collect(typ).value, h))
      && (h.typ.id == typ && collect(typ).Fail? ==> s == Panicked(ErrorPanic(collect(typ).error)))
  {
  }

  /** The table is keyed by type identity, not by printed name: a value
      whose type prints like an earlier one's but is a different type still
      finds no entry, takes the slow path and gets its own dynamic adaptor. */
  lemma AlikeNamesKeptApart(t: AdaptorTable, h1: HandlerValue, h2: HandlerValue,
                            collect: TypeId -> Result<Plan.Info, string>)
    requires Classify(h1.typ) == Reflect && Classify(h2.typ) == Reflect
    requires h1.typ.name == h2.typ.name && h1.typ.id != h2.typ.id
    requires Lookup(t, h1.typ.id).None? && Lookup(t, h2.typ.id).None?
    ensures var r1 := HandlerFunc(t, h1, collect);
      var r2 := HandlerFunc(r1.table, h2, collect);
      r1.slowPath && r2.slowPath
      && Lookup(r2.table, h1.typ.id) == Some(Dynamic(h1.typ.id))
      && Lookup(r2.table, h2.typ.id) == Some(Dynamic(h2.typ.id))
  {
  }

  /** Calling `HandlerFunc` a second time on the same value changes nothing
      and yields the same handler, without the slow path. */
  lemma HandlerFuncIdempotent(t: AdaptorTable, h: HandlerValue, collect: TypeId -> Result<Plan.Info, string>)
    ensures var first := HandlerFunc(t, h, collect);
      var second := HandlerFunc(first.table, h, collect);
      second.table == first.table && second.served == first.served && !second.slowPath
  {
  }

  /** An adaptor installed with `RegisterAdaptor` is used as it is: no dynamic
      adaptor is built and the table is left alone. */
  lemma RegisteredAdaptorWins(t: AdaptorTable, h: HandlerValue, a: Adaptor, collect: TypeId -> Result<Plan.Info, string>)
    requires Classify(h.typ) == Reflect
    ensures var t' := RegisterAdaptor(t, h.typ.id, a);
      HandlerFunc(t', h, collect) == Registration(t', ApplyAdaptor(a, h, collect), false)
  {
  }

  /** A nil adaptor registered for a function type counts as an entry: the
      value takes no slow path, no dynamic adaptor replaces the nil one, and
      calling it panics with the runtime's `error`. */
  lemma NilAdaptorRegistered(t: AdaptorTable, h: HandlerValue, collect: TypeId -> Result<Plan.Info, string>)
    requires Classify(h.typ) == Reflect
    ensures var t' := RegisterAdaptor(t, h.typ.id, NilAdaptor);
      var r := HandlerFunc(t', h, collect);
      !r.slowPath && r.table == t' && Lookup(r.table, h.typ.id) == Some(NilAdaptor)
      && r.served == Panicked(ErrorPanic(NilCallMessage))
  {
  }

  /** What one `HandlerFunc` call does to the table: it adds the dynamic
      adaptor for the value's type exactly when it takes the slow path, and
      leaves every other lookup as it was. */
  lemma HandlerFuncTable(t: AdaptorTable, h: HandlerValue, collect: TypeId -> Result<Plan.Info, string>)
    ensures var r := HandlerFunc(t, h, collect);
      forall k :: Lookup(r.table, k) == (if r.slowPath && k == h.typ.id then Some(Dynamic(k)) else Lookup(t, k))
  {
  }

  /** The function types among the first `n` values of `hs`. */
  function FunctionTypesBefore(hs: seq<HandlerValue>, n: nat): set<TypeId>
    requires n <= |hs|
  {
    if n == 0 then {}
    else FunctionTypesBefore(hs, n - 1) + (if Classify(hs[n - 1].typ) == Reflect then {hs[n - 1].typ.id} else {})
  }

  /** The function types among the values of `hs`. */
  function FunctionTypes(hs: seq<HandlerValue>): set<TypeId>
  {
    FunctionTypesBefore(hs, |hs|)
  }

  /** The function types before `n` depend only on the values before `n`. */
  lemma {:induction false} FunctionTypesPrefix(hs: seq<HandlerValue>, m: nat, n: nat)
    requires m <= n <= |hs|
    ensures FunctionTypesBefore(hs[..n], m) == FunctionTypesBefore(hs, m)
    decreases m
  {
    if m > 0 {
      FunctionTypesPrefix(hs, m - 1, n);
      assert hs[..n][m - 1] == hs[m - 1];
    }
  }

  /** A type is among the function types before `n` exactly when one of the
      first `n` values is a function of that type. */
  lemma {:induction false} FunctionTypesBeforeIff(hs: seq<HandlerValue>, n: nat, k: TypeId)
    requires n <= |hs|
    ensures k in FunctionTypesBefore(hs, n) <==> exists i :: 0 <= i < n && Classify(hs[i].typ) == Reflect && hs[i].typ.id == k
    decreases n
  {
    if n > 0 {
      FunctionTypesBeforeIff(hs, n - 1, k);
    }
  }

  /** The types of those among the first `n` values whose flag in `slow` is
      set, in order. */
  function MarkedTypes(hs: seq<HandlerValue>, slow: seq<bool>, n: nat): seq<TypeId>
    requires n <= |slow| && n <= |hs|
  {
    if n == 0 then []
    else MarkedTypes(hs, slow, n - 1) + (if slow[n - 1] then [hs[n - 1].typ.id] else [])
  }

  /** The types of the values whose flag in `slow` is set, in order. */
  function SlowPathTypes(hs: seq<HandlerValue>, slow: seq<bool>): seq<TypeId>
    requires |slow| <= |hs|
  {
    MarkedTypes(hs, slow, |slow|)
  }

  /** `MarkedTypes` reads only the first `n` flags. */
  lemma {:induction false} MarkedTypesPrefix(hs: seq<HandlerValue>, a: seq<bool>, b: seq<bool>, n: nat)
    requires n <= |a| && n <= |b| && n <= |hs|
    requires forall i :: 0 <= i < n ==> a[i] == b[i]
    ensures MarkedTypes(hs, a, n) == MarkedTypes(hs, b, n)
    decreases n
  {
    if n > 0 {
      MarkedTypesPrefix(hs, a, b, n - 1);
    }
  }

  /** The table after `HandlerFunc` on the first `n` values of `hs`, starting
      from `t`: each function type seen that had no entry in `t` now has its
      dynamic adaptor, and every other lookup is as in `t`. */
  ghost predicate TableSoFar(t: AdaptorTable, hs: seq<HandlerValue>, n: nat, final: AdaptorTable)
    requires n <= |hs|
  {
    forall k :: Lookup(final, k) ==
      (if Lookup(t, k).None? && k in FunctionTypesBefore(hs, n) then Some(Dynamic(k)) else Lookup(t, k))
  }

  /** Which of the first `n` calls took the slow path: exactly those on a
      function type with no entry in `t` that no earlier value had; `built`
      lists their types in order. */
  ghost predicate SlowSoFar(t: AdaptorTable, hs: seq<HandlerValue>, n: nat, slow: seq<bool>, built: seq<TypeId>)
  {
    && n <= |hs| && |slow| == n
    && (forall i :: 0 <= i < n ==>
          (slow[i] <==> Classify(hs[i].typ) == Reflect && Lookup(t, hs[i].typ.id).None?
                        && hs[i].typ.id !in FunctionTypesBefore(hs, i)))
    && built == MarkedTypes(hs, slow, n)
  }

  /** One more `HandlerFunc` call keeps `TableSoFar`. */
  lemma TableStep(t: AdaptorTable, hs: seq<HandlerValue>, n: nat, collect: TypeId -> Result<Plan.Info, string>,
                  final: AdaptorTable)
    requires n < |hs| && TableSoFar(t, hs, n, final)
    ensures TableSoFar(t, hs, n + 1, HandlerFunc(final, hs[n], collect).table)
  {
    var r := HandlerFunc(final, hs[n], collect);
    HandlerFuncTable(final, hs[n], collect);
    forall k
      ensures Lookup(r.table, k) ==
        (if Lookup(t, k).None? && k in FunctionTypesBefore(hs, n + 1) then Some(Dynamic(k)) else Lookup(t, k))
    {
      if k == hs[n].typ.id && Classify(hs[n].typ) == Reflect && Lookup(t, k).None? && k !in FunctionTypesBefore(hs, n) {
        assert Lookup(final, k).None?;
      }
    }
  }

  /** One more `HandlerFunc` call keeps `SlowSoFar`, given the table so far. */
  lemma SlowStep(t: AdaptorTable, hs: seq<HandlerValue>, n: nat, collect: TypeId -> Result<Plan.Info, string>,
                 final: AdaptorTable, slow: seq<bool>, built: seq<TypeId>)
    requires n < |hs| && TableSoFar(t, hs, n, final) && SlowSoFar(t, hs, n, slow, built)
    ensures var r := HandlerFunc(final, hs[n], collect);
      SlowSoFar(t, hs, n + 1, slow + [r.slowPath], if r.slowPath then built + [hs[n].typ.id] else built)
  {
    var r := HandlerFunc(final, hs[n], collect);
    var id := hs[n].typ.id;
    var slow' := slow + [r.slowPath];
    assert r.slowPath <==> Classify(hs[n].typ) == Reflect && Lookup(t, id).None? && id !in FunctionTypesBefore(hs, n) by {
      assert Lookup(final, id).None? <==> Lookup(t, id).None? && id !in FunctionTypesBefore(hs, n);
    }
    forall i | 0 <= i < n
      ensures slow'[i] == slow[i]
    {
    }
    MarkedTypesPrefix(hs, slow', slow, n);
    assert MarkedTypes(hs, slow', n + 1) == MarkedTypes(hs, slow, n) + (if r.slowPath then [id] else []);
  }

  /** What a run of `HandlerFunc` calls over the first `n` values of `hs`,
      starting from table `t`, has served, given the table `final` it left:
      the table is consulted only for function types, and their entries are
      there. */
  ghost predicate ServedSoFar(t: AdaptorTable, hs: seq<HandlerValue>, n: nat, collect: TypeId -> Result<Plan.Info, string>,
                              final: AdaptorTable, served: seq<Served>)
  {
    && n <= |hs| && |served| == n
    && (forall i :: 0 <= i < n && Classify(hs[i].typ) != Reflect ==> served[i] == HandlerFunc(t, hs[i], collect).served)
    && (forall i :: 0 <= i < n && Classify(hs[i].typ) == Reflect ==> Lookup(final, hs[i].typ.id).Some?)
    && (forall i :: 0 <= i < n && Classify(hs[i].typ) == Reflect ==>
          served[i] == ApplyAdaptor(Lookup(final, hs[i].typ.id).value, hs[i], collect))
  }

  /** One more `HandlerFunc` call on the shared table keeps `ServedSoFar`. */
  lemma ServedStep(t: AdaptorTable, hs: seq<HandlerValue>, n: nat, collect: TypeId -> Result<Plan.Info, string>,
                   final: AdaptorTable, served: seq<Served>)
    requires n < |hs| && ServedSoFar(t, hs, n, collect, final, served)
    requires forall k :: Lookup(t, k).Some? ==> Lookup(final, k) == Lookup(t, k)
    ensures var r := HandlerFunc(final, hs[n], collect);
      ServedSoFar(t, hs, n + 1, collect, r.table, served + [r.served])
  {
    var r := HandlerFunc(final, hs[n], collect);
    HandlerFuncTable(final, hs[n], collect);
    var served' := served + [r.served];
    forall i | 0 <= i < n + 1 && Classify(hs[i].typ) == Reflect
      ensures Lookup(r.table, hs[i].typ.id).Some?
      ensures served'[i] == ApplyAdaptor(Lookup(r.table, hs[i].typ.id).value, hs[i], collect)
    {
      if i < n {
        assert Lookup(final, hs[i].typ.id).Some?;
      }
    }
  }

  /** The types of the slow-path calls are distinct, had no entry in `t`,
      and are function types of the values handled. */
  lemma {:induction false} MarkedTypesOnce(t: AdaptorTable, hs: seq<HandlerValue>, slow: seq<bool>, n: nat)
    requires n <= |slow| && n <= |hs|
    requires forall i :: 0 <= i < n ==>
      (slow[i] <==> Classify(hs[i].typ) == Reflect && Lookup(t, hs[i].typ.id).None?
                    && hs[i].typ.id !in FunctionTypesBefore(hs, i))
    ensures forall i, j :: 0 <= i < j < |MarkedTypes(hs, slow, n)| ==> MarkedTypes(hs, slow, n)[i] != MarkedTypes(hs, slow, n)[j]
    ensures forall i :: 0 <= i < |MarkedTypes(hs, slow, n)| ==> Lookup(t, MarkedTypes(hs, slow, n)[i]).None?
    ensures forall i :: 0 <= i < |MarkedTypes(hs, slow, n)| ==> MarkedTypes(hs, slow, n)[i] in FunctionTypesBefore(hs, n)
    decreases n
  {
    if n > 0 {
      MarkedTypesOnce(t, hs, slow, n - 1);
      var front, id := MarkedTypes(hs, slow, n - 1), hs[n - 1].typ.id;
      assert FunctionTypesBefore(hs, n - 1) <= FunctionTypesBefore(hs, n);
      if slow[n - 1] {
        assert MarkedTypes(hs, slow, n) == front + [id];
        forall i | 0 <= i < |front|
          ensures front[i] != id
        {
          assert front[i] in FunctionTypesBefore(hs, n - 1);
        }
      }
    }
  }

  /** The state of a run after its first `n` calls. */
  ghost predicate RunSoFar(t: AdaptorTable, hs: seq<HandlerValue>, n: nat, collect: TypeId -> Result<Plan.Info, string>,
                           final: AdaptorTable, served: seq<Served>, slow: seq<bool>, built: seq<TypeId>)
  {
    && ServedSoFar(t, hs, n, collect, final, served)
    && TableSoFar(t, hs, n, final)
    && SlowSoFar(t, hs, n, slow, built)
  }

  /** One more call keeps `RunSoFar`. */
  lemma RunStep(t: AdaptorTable, hs: seq<HandlerValue>, n: nat, collect: TypeId -> Result<Plan.Info, string>,
                final: AdaptorTable, served: seq<Served>, slow: seq<bool>, built: seq<TypeId>)
    requires n < |hs| && RunSoFar(t, hs, n, collect, final, served, slow, built)
    ensures var r := HandlerFunc(final, hs[n], collect);
      RunSoFar(t, hs, n + 1, collect, r.table, served + [r.served], slow + [r.slowPath],
               if r.slowPath then built + [hs[n].typ.id] else built)
  {
    ServedStep(t, hs, n, collect, final, served);
    TableStep(t, hs, n, collect, final);
    SlowStep(t, hs, n, collect, final, slow, built);
  }

  /** What a whole run has done, read off `RunSoFar` at its end. */
  lemma RunDone(t: AdaptorTable, hs: seq<HandlerValue>, collect: TypeId -> Result<Plan.Info, string>,
                final: AdaptorTable, served: seq<Served>, slow: seq<bool>, built: seq<TypeId>)
    requires RunSoFar(t, hs, |hs|, collect, final, served, slow, built)
    ensures |served| == |hs| && |slow| == |hs|
    ensures forall i {:trigger slow[i]} :: 0 <= i < |hs| ==>
      (slow[i] <==> Classify(hs[i].typ) == Reflect && Lookup(t, hs[i].typ.id).None?
                    && hs[i].typ.id !in FunctionTypes(hs[..i]))
    ensures built == SlowPathTypes(hs, slow)
    ensures forall k ::
      Lookup(final, k) == if Lookup(t, k).None? && k in FunctionTypes(hs) then Some(Dynamic(k)) else Lookup(t, k)
    ensures forall i :: 0 <= i < |hs| && Classify(hs[i].typ) != Reflect ==> served[i] == HandlerFunc(t, hs[i], collect).served
    ensures forall i :: 0 <= i < |hs| && Classify(hs[i].typ) == Reflect ==>
      served[i] == ApplyAdaptor(if Lookup(t, hs[i].typ.id).Some? then Lookup(t, hs[i].typ.id).value else Dynamic(hs[i].typ.id),
                                hs[i], collect)
  {
    assert built == SlowPathTypes(hs, slow);
    forall i | 0 <= i < |hs|
      ensures FunctionTypes(hs[..i]) == FunctionTypesBefore(hs, i)
    {
      FunctionTypesPrefix(hs, i, i);
    }
    forall i | 0 <= i < |hs| && Classify(hs[i].typ) == Reflect
      ensures Lookup(final, hs[i].typ.id)
        == Some(if Lookup(t, hs[i].typ.id).Some? then Lookup(t, hs[i].typ.id).value else Dynamic(hs[i].typ.id))
    {
      assert Lookup(final, hs[i].typ.id).Some?;
    }
  }

  /** A run of `HandlerFunc` calls sharing one table, as a program's setup
      does. `slow[i]` says whether call `i` took the slow path: exactly when
      its value is the first of a function type with no entry to begin with.
      `built` lists the types of those calls in order (so each type is built a
      dynamic adaptor at most once, `MarkedTypesOnce`). The final table adds
      the dynamic adaptor of each such type and is `t` everywhere else, and
      every function value is served by its type's entry in `t`, or else by
      its dynamic adaptor. */
  method HandleAll(t: AdaptorTable, hs: seq<HandlerValue>, collect: TypeId -> Result<Plan.Info, string>)
    returns (final: AdaptorTable, served: seq<Served>, slow: seq<bool>, built: seq<TypeId>)
    ensures |served| == |hs| && |slow| == |hs|
    ensures forall i {:trigger slow[i]} :: 0 <= i < |hs| ==>
      (slow[i] <==> Classify(hs[i].typ) == Reflect && Lookup(t, hs[i].typ.id).None?
                    && hs[i].typ.id !in FunctionTypes(hs[..i]))
    ensures built == SlowPathTypes(hs, slow)
    ensures forall k ::
      Lookup(final, k) == if Lookup(t, k).None? && k in FunctionTypes(hs) then Some(Dynamic(k)) else Lookup(t, k)
    ensures forall i :: 0 <= i < |hs| && Classify(hs[i].typ) != Reflect ==> served[i] == HandlerFunc(t, hs[i], collect).served
    ensures forall i :: 0 <= i < |hs| && Classify(hs[i].typ) == Reflect ==>
      served[i] == ApplyAdaptor(if Lookup(t, hs[i].typ.id).Some? then Lookup(t, hs[i].typ.id).value else Dynamic(hs[i].typ.id),
                                hs[i], collect)
  {
    final, served, slow, built := t, [], [], [];
    var n := 0;
    while n < |hs|
      invariant n <= |hs|
      invariant RunSoFar(t, hs, n, collect, final, served, slow, built)
    {
      RunStep(t, hs, n, collect, final, served, slow, built);
      var r := HandlerFunc(final, hs[n], collect);
      if r.slowPath {
        built := built + [hs[n].typ.id];
      }
      final, served, slow := r.table, served + [r.served], slow + [r.slowPath];
      n := n + 1;
    }
    RunDone(t, hs, collect, final, served, slow, built);
  }
}
