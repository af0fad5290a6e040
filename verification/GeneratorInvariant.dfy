/** What every run of the visitor keeps. */
module GeneratorInvariant {
  import opened Options
  import opened CTypes
  import opened Generator

  /** The callbacks recorded for the parameters `params[..n]` under strategy and flags fixed by the thunk. */
  ghost predicate CallbacksOf(callbacks: map<nat, Callback>, params: seq<CType>, n: nat, types: seq<CType>,
      customHost: bool)
    requires n <= |params|
  {
    && (forall k: nat :: k in callbacks <==> k < n && IsFunctionPointer(params[k]))
    && |callbacks| <= 1
    && (forall k | k in callbacks :: CallbackOk(callbacks[k], params[k], types, customHost))
  }

  predicate CallbackOk(cb: Callback, t: CType, types: seq<CType>, customHost: bool)
    requires IsFunctionPointer(t)
  {
    && cb.callee == Callee(t) && cb.spelled == SpelledCallee(t)
    && !(cb.isStub && cb.isGuest)
    && (cb.isGuest ==> customHost)
    && (cb.callee.variadic ==> cb.isStub)
    && (!cb.isStub && !cb.isGuest ==> cb.callee in types)
  }

  /** A thunk and the API function it was made from. */
  ghost predicate Corresponds(t: Thunk, a: Api, types: seq<CType>) {
    && t.variadic == a.variadic
    && t.ret == a.ret
    && t.name == a.name + (if a.variadic then "_internal" else "")
    && a.params <= t.params
    && (if a.variadic
        then t.customHost && a.customGuest && |t.params| == |a.params| + 2
             && t.params[|a.params|] == SIZE_T && t.params[|a.params| + 1].Ptr?
        else t.params == a.params)
    && CallbacksOf(t.callbacks, t.params, |a.params|, types, t.customHost && !t.variadic)
  }

  /** An API function and the namespace whose symbol table it is entered in. */
  predicate ApiOk(a: Api, namespaces: seq<Namespace>, types: seq<CType>, complete: bool) {
    && a.loader != ""
    && (a.symtable.Some? ==>
          && a.symtable.value < |namespaces|
          && namespaces[a.symtable.value].symtable
          && (complete && namespaces[a.symtable.value].indirect ==>
                Canonical(Fn(a.ret, a.params, a.variadic)) in types))
  }

  ghost predicate Invariant(st: State) {
    && |st.thunks| <= |st.api| <= |st.thunks| + (if st.failed then 1 else 0)
    && (|st.thunks| < |st.api| ==> st.api[|st.thunks|].variadic && st.api[|st.thunks|].customGuest)
    && (st.api != [] ==> st.namespaces != [])
    && (forall i | 0 <= i < |st.thunks| :: Corresponds(st.thunks[i], st.api[i], st.types))
    && (forall i | 0 <= i < |st.api| :: ApiOk(st.api[i], st.namespaces, st.types, i < |st.thunks|))
  }

  /** Everything recorded only grows. */
  predicate Grows(st: State, st': State) {
    && st.thunks <= st'.thunks && st.api <= st'.api && st.namespaces <= st'.namespaces
    && forall t | t in st.types :: t in st'.types
  }

  lemma CorrespondsMono(t: Thunk, a: Api, types: seq<CType>, types': seq<CType>)
    requires Corresponds(t, a, types) && forall u | u in types :: u in types'
    ensures Corresponds(t, a, types')
  {
    forall k | k in t.callbacks
      ensures CallbackOk(t.callbacks[k], t.params[k], types', t.customHost && !t.variadic)
    {
      assert CallbackOk(t.callbacks[k], t.params[k], types, t.customHost && !t.variadic);
    }
  }

  ghost predicate ScanOk(s: Scan, a: Annotations, params: seq<CType>, n: nat, types0: seq<CType>)
    requires n <= |params|
  {
    && (forall t | t in types0 :: t in s.types)
    && (!s.failed ==> CallbacksOf(s.callbacks, params, n, s.types, a.customHost))
  }

  lemma ScanParamKeeps(s: Scan, a: Annotations, i: nat, params: seq<CType>, types0: seq<CType>)
    requires i < |params| && !s.failed && ScanOk(s, a, params, i, types0)
    ensures ScanOk(ScanParam(s, a, i, params[i]), a, params, i + 1, types0)
  {
    var t, s' := params[i], ScanParam(s, a, i, params[i]);
    if IsFunctionPointer(t) && !s'.failed {
      assert i !in s.callbacks;
      assert s'.callbacks.Keys == s.callbacks.Keys + {i};
      assert s.callbacks.Keys == {};
    }
  }

  lemma {:induction false} ScanParamsKeeps(s: Scan, a: Annotations, i: nat, params: seq<CType>, types0: seq<CType>)
    requires i <= |params| && ScanOk(s, a, params, i, types0)
    ensures var s' := ScanParams(s, a, i, params); ScanOk(s', a, params, |params|, types0)
    decreases |params| - i
  {
    if !s.failed && i < |params| {
      ScanParamKeeps(s, a, i, params, types0);
      ScanParamsKeeps(ScanParam(s, a, i, params[i]), a, i + 1, params, types0);
    }
  }

  lemma ThunkOfCorresponds(fn: Function, a: Annotations, ns: Namespace, k: nat, callbacks: map<nat, Callback>,
      types: seq<CType>)
    requires fn.variadic ==> a.vaType.Some? && !a.customHost
    requires CallbacksOf(callbacks, fn.params, |fn.params|, types, a.customHost)
    ensures Corresponds(ThunkOf(fn, a, callbacks), ApiOf(fn, a, ns, k), types)
  {
    var t := ThunkOf(fn, a, callbacks);
    forall k | k in callbacks
      ensures CallbackOk(callbacks[k], t.params[k], types, t.customHost && !t.variadic)
    {
      assert CallbackOk(callbacks[k], fn.params[k], types, a.customHost);
      assert t.params[k] == fn.params[k];
    }
    assert forall k: nat | k < |fn.params| :: t.params[k] == fn.params[k];
  }

  lemma AppendKeeps(st: State, st': State)
    requires Invariant(st) && Grows(st, st') && (st.failed ==> st'.failed)
    requires st'.thunks == st.thunks && st'.api == st.api
    ensures Invariant(st')
  {
    forall i | 0 <= i < |st.thunks|
      ensures Corresponds(st'.thunks[i], st'.api[i], st'.types)
    {
      CorrespondsMono(st.thunks[i], st.api[i], st.types, st'.types);
    }
    forall i | 0 <= i < |st'.api|
      ensures ApiOk(st'.api[i], st'.namespaces, st'.types, i < |st'.thunks|)
    {
      assert ApiOk(st.api[i], st.namespaces, st.types, i < |st.thunks|);
    }
  }

  lemma AddApiKeeps(st: State, a: Api)
    requires Invariant(st) && |st.thunks| == |st.api| && ApiOk(a, st.namespaces, st.types, false)
    requires a.variadic && a.customGuest && st.namespaces != []
    ensures Invariant(st.(api := st.api + [a], failed := true))
  {
  }

  lemma AddThunkKeeps(st: State, t: Thunk, a: Api)
    requires Invariant(st) && |st.thunks| == |st.api|
    requires Corresponds(t, a, st.types) && ApiOk(a, st.namespaces, st.types, true) && st.namespaces != []
    ensures Invariant(st.(api := st.api + [a], thunks := st.thunks + [t]))
  {
    var st' := st.(api := st.api + [a], thunks := st.thunks + [t]);
    forall i | 0 <= i < |st'.api|
      ensures ApiOk(st'.api[i], st'.namespaces, st'.types, i < |st'.thunks|)
    {
      if i < |st.api| { assert ApiOk(st.api[i], st.namespaces, st.types, i < |st.thunks|); }
    }
  }

  lemma VisitConfigKeeps(st: State, v: Visit)
    requires Invariant(st) && !st.failed && NamespaceRecorded(st, v) && v.ConfigSpecialization?
    ensures Invariant(VisitConfig(st, v)) && Grows(st, VisitConfig(st, v))
  {
    hide GetAnnotations, NamespaceIndex, IsFunctionPointer, Corresponds, ApiOk, ScanParams, Canonical, CallbacksOf;
    var k := NamespaceIndex(st.namespaces, NamespaceName(v.ns));
    var ns, fn, r := st.namespaces[k], v.fn, GetAnnotations(v.bases, v.children);
    if v.explicitInstantiation || r.Err? || (IsFunctionPointer(fn.ret) && !r.value.returnsGuestPointer) {
      AppendKeeps(st, st.(failed := true));
    } else {
      var a := r.value;
      var scan := ScanParams(Scan(map[], st.types, false), a, 0, fn.params);
      ScanParamsKeeps(Scan(map[], st.types, false), a, 0, fn.params, st.types);
      AppendKeeps(st, st.(types := scan.types));
      AppendKeeps(st, st.(types := scan.types, failed := true));
      if !scan.failed { RecordKeeps(st.(types := scan.types), fn, a, k, scan.callbacks); }
    }
  }

  /** What is recorded once the parameters have been scanned. */
  function Record(st: State, fn: Function, a: Annotations, k: nat, callbacks: map<nat, Callback>): State
    requires k < |st.namespaces|
  {
    var api := ApiOf(fn, a, st.namespaces[k], k);
    if fn.variadic && (a.vaType == None || a.customHost) then st.(api := st.api + [api], failed := true)
    else
      var types := if st.namespaces[k].indirect
                   then InsertType(st.types, Canonical(Fn(fn.ret, fn.params, fn.variadic)))
                   else st.types;
      st.(types := types, api := st.api + [api], thunks := st.thunks + [ThunkOf(fn, a, callbacks)])
  }

  lemma RecordKeeps(st: State, fn: Function, a: Annotations, k: nat, callbacks: map<nat, Callback>)
    requires Invariant(st) && !st.failed && k < |st.namespaces|
    requires CallbacksOf(callbacks, fn.params, |fn.params|, st.types, a.customHost)
    ensures Invariant(Record(st, fn, a, k, callbacks)) && Grows(st, Record(st, fn, a, k, callbacks))
  {
    var api := ApiOf(fn, a, st.namespaces[k], k);
    if fn.variadic && (a.vaType == None || a.customHost) {
      AddApiKeeps(st, api);
    } else {
      var st' := st.(types := Record(st, fn, a, k, callbacks).types);
      AppendKeeps(st, st');
      ThunkOfCorresponds(fn, a, st.namespaces[k], k, callbacks, st.types);
      CorrespondsMono(ThunkOf(fn, a, callbacks), api, st.types, st'.types);
      AddThunkKeeps(st', ThunkOf(fn, a, callbacks), api);
    }
  }

  /** One visit keeps the invariant, whatever it reports. */
  lemma StepKeeps(st: State, v: Visit)
    requires Invariant(st) && !st.failed && NamespaceRecorded(st, v)
    ensures Invariant(Step(st, v)) && Grows(st, Step(st, v))
  {
    match v
    case ClassTemplate(_, _, _, _, _) => AppendKeeps(st, VisitTemplate(st, v));
    case TypeSpecialization(_) => AppendKeeps(st, Step(st, v));
    case ConfigSpecialization(_, _, _, _, _) => VisitConfigKeeps(st, v);
    case OtherSpecialization =>
  }

  /** In every state of every run `thunks` and `thunked_api` correspond index by index, and nothing recorded is lost. */
  lemma {:induction false} RunKeeps(visits: seq<Visit>, states: seq<State>, n: nat)
    requires Run(visits, states) && n < |states|
    ensures Invariant(states[n])
    ensures n > 0 ==> Grows(states[n - 1], states[n])
  {
    if n > 0 {
      RunKeeps(visits, states, n - 1);
      assert Steps(states[n - 1], visits[n - 1], states[n]);
      if !states[n - 1].failed { StepKeeps(states[n - 1], visits[n - 1]); }
    }
  }
}
