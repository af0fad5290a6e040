/** Exactly which annotated functions the visitor accepts. */
module GeneratorAcceptance {
  import opened CTypes
  import opened Generator
  import opened GeneratorInvariant

  /** A callback parameter that the annotations allow. */
  predicate AllowedCallback(a: Annotations, t: CType)
    requires IsFunctionPointer(t)
  {
    (a.strategy == Guest ==> a.customHost) && (Callee(t).variadic ==> a.strategy == Stub)
  }

  predicate AllowedParams(a: Annotations, params: seq<CType>, i: nat)
    requires i <= |params|
  {
    && (forall j | i <= j < |params| && IsFunctionPointer(params[j]) :: AllowedCallback(a, params[j]))
    && (forall j, k | i <= j < k < |params| :: !(IsFunctionPointer(params[j]) && IsFunctionPointer(params[k])))
  }

  lemma {:induction false} ScanExactly(s: Scan, a: Annotations, i: nat, params: seq<CType>)
    requires i <= |params| && !s.failed && ScanOk(s, a, params, i, s.types)
    ensures !ScanParams(s, a, i, params).failed
            <==> AllowedParams(a, params, i) && (s.callbacks != map[]
                 ==> forall j | i <= j < |params| :: !IsFunctionPointer(params[j]))
    decreases |params| - i
  {
    if i < |params| {
      var s' := ScanParam(s, a, i, params[i]);
      ScanParamKeeps(s, a, i, params, s.types);
      if IsFunctionPointer(params[i]) {
        FirstOrFails(s, a, i, params);
        if !s'.failed { ScanExactly(s', a, i + 1, params); }
      } else {
        ScanExactly(s, a, i + 1, params);
        assert AllowedParams(a, params, i) <==> AllowedParams(a, params, i + 1) by {
          if AllowedParams(a, params, i + 1) {
            forall j, k | i <= j < k < |params|
              ensures !(IsFunctionPointer(params[j]) && IsFunctionPointer(params[k]))
            {
            }
          }
        }
      }
    }
  }

  lemma FirstOrFails(s: Scan, a: Annotations, i: nat, params: seq<CType>)
    requires i < |params| && !s.failed && ScanOk(s, a, params, i, s.types) && IsFunctionPointer(params[i])
    ensures var s' := ScanParam(s, a, i, params[i]);
            && (s'.failed <==> s.callbacks != map[] || !AllowedCallback(a, params[i]))
            && (!s'.failed ==> s'.callbacks != map[])
  {
    assert i !in s.callbacks;
    if s.callbacks == map[] {
      assert |s.callbacks| == 0;
    } else {
      assert s.callbacks.Keys != {};
      assert |s.callbacks| > 0;
    }
  }

  /** A function is accepted if and only if its annotations and signature satisfy all of these rules. */
  lemma AcceptedExactly(st: State, v: Visit)
    requires !st.failed && v.ConfigSpecialization? && NamespaceRecorded(st, v)
    ensures !VisitConfig(st, v).failed
            <==> !v.explicitInstantiation
                 && match GetAnnotations(v.bases, v.children)
                    case Err => false
                    case Ok(a) =>
                      && (IsFunctionPointer(v.fn.ret) ==> a.returnsGuestPointer)
                      && AllowedParams(a, v.fn.params, 0)
                      && (v.fn.variadic ==> a.vaType.Some? && !a.customHost)
  {
    var r := GetAnnotations(v.bases, v.children);
    if r.Ok? {
      ScanExactly(Scan(map[], st.types, false), r.value, 0, v.fn.params);
    }
  }
}
