/** What a run without an error has recorded, entry by entry, in terms of the declarations it has visited. */
module RecordedDeclarations {
  import opened Options
  import opened CTypes
  import opened Generator
  import opened GeneratorInvariant
  import opened GeneratorAcceptance
  import opened DeclaredAnnotations
  import opened Emission
  import opened ThunkRuntime
  import opened Compilation

  /** The configured functions among the visits, in order. */
  function Configs(visits: seq<Visit>): seq<Visit> {
    if visits == [] then []
    else
      var last := visits[|visits| - 1];
      Configs(visits[..|visits| - 1]) + (if last.ConfigSpecialization? then [last] else [])
  }

  /** The templates that open a namespace, in order. */
  function Templates(visits: seq<Visit>): seq<Visit> {
    if visits == [] then []
    else
      var last := visits[|visits| - 1];
      Templates(visits[..|visits| - 1]) + (if last.ClassTemplate? && last.name == "fex_gen_config" then [last] else [])
  }

  function NameOfNamespace(ns: Option<string>): string {
    match ns
    case None => ""
    case Some(n) => n
  }

  // ----- one entry and its declaration -----

  predicate NamespaceDeclared(ns: Namespace, v: Visit)
    requires v.ClassTemplate?
  {
    && ns.name == NameOfNamespace(v.ns)
    && (ns.symtable <==> v.hasDefinition && "fexgen::generate_guest_symtable" in v.bases)
    && (ns.indirect <==> v.hasDefinition && "fexgen::indirect_guest_calls" in v.bases)
    && (if v.hasDefinition && HasLoader(v.fields) then LastLoader(v.fields, ns.loader) else ns.loader == "")
  }

  /** Namespace `k` is the first of its name. */
  predicate FirstNamed(namespaces: seq<Namespace>, name: string, k: nat) {
    k < |namespaces| && namespaces[k].name == name && forall j | 0 <= j < k :: namespaces[j].name != name
  }

  predicate ApiDeclared(a: Api, v: Visit, namespaces: seq<Namespace>)
    requires v.ConfigSpecialization?
  {
    && a.name == v.fn.name && a.ret == v.fn.ret && a.params == v.fn.params && a.variadic == v.fn.variadic
    && (a.customGuest <==> v.fn.variadic || "fexgen::custom_guest_entrypoint" in v.bases)
    && exists k | 0 <= k < |namespaces| ::
         FirstNamed(namespaces, NameOfNamespace(v.ns), k) && ServedBy(a, namespaces, k)
  }

  /** Loader and symbol table are those of namespace `k`; without a loader of its own it uses `dlsym`. */
  predicate ServedBy(a: Api, namespaces: seq<Namespace>, k: nat)
    requires k < |namespaces|
  {
    && a.loader == (if namespaces[k].loader == "" then "dlsym" else namespaces[k].loader)
    && a.symtable == (if namespaces[k].symtable then Some(k) else None)
  }

  ghost predicate ThunkDeclared(t: Thunk, v: Visit)
    requires v.ConfigSpecialization?
  {
    var fn := v.fn;
    && t.ret == fn.ret && t.variadic == fn.variadic
    && (t.customHost <==> fn.variadic || "fexgen::custom_host_impl" in v.bases)
    && (!fn.variadic ==> t.name == fn.name && t.params == fn.params)
    && (fn.variadic ==> t.name == fn.name + "_internal" && ParametersExtended(t.params, fn.params, v.children))
    && (forall i :: i in t.callbacks <==> 0 <= i < |fn.params| && IsFunctionPointer(fn.params[i]))
    && forall i | i in t.callbacks :: CallbackDeclared(t.callbacks[i], fn.params[i], v.bases)
  }

  /** Variadic arguments become a count and a pointer. */
  predicate ParametersExtended(ps: seq<CType>, params: seq<CType>, children: seq<Child>) {
    && |ps| == |params| + 2 && ps[..|params|] == params
    && ps[|params|] == SIZE_T
    && ps[|params| + 1].Ptr? && !ps[|params| + 1].isConst && VariadicArguments(children, ps[|params| + 1].pointee)
  }

  predicate CallbackDeclared(cb: Callback, t: CType, bases: seq<string>)
    requires IsFunctionPointer(t)
  {
    && cb.callee == Callee(t) && cb.spelled == SpelledCallee(t)
    && (cb.isStub <==> StubCallbacks(bases)) && (cb.isGuest <==> GuestCallbacks(bases))
  }

  // ----- one visit -----

  predicate Flagged(callbacks: map<nat, Callback>, a: Annotations) {
    forall k | k in callbacks ::
      (callbacks[k].isStub <==> a.strategy == Stub) && (callbacks[k].isGuest <==> a.strategy == Guest)
  }

  lemma {:induction false} ScanFlags(s: Scan, a: Annotations, i: nat, params: seq<CType>)
    requires i <= |params| && Flagged(s.callbacks, a)
    ensures Flagged(ScanParams(s, a, i, params).callbacks, a)
    decreases |params| - i
  {
    if !s.failed && i < |params| {
      hide IsFunctionPointer, SpelledCallee, Callee;
      assert Flagged(ScanParam(s, a, i, params[i]).callbacks, a);
      ScanFlags(ScanParam(s, a, i, params[i]), a, i + 1, params);
    }
  }

  lemma ScanDeclared(types: seq<CType>, v: Visit, a: Annotations)
    requires v.ConfigSpecialization? && GetAnnotations(v.bases, v.children) == Ok(a)
    requires !ScanParams(Scan(map[], types, false), a, 0, v.fn.params).failed
    ensures var cbs := ScanParams(Scan(map[], types, false), a, 0, v.fn.params).callbacks;
            && (forall i :: i in cbs <==> 0 <= i < |v.fn.params| && IsFunctionPointer(v.fn.params[i]))
            && forall i | i in cbs :: CallbackDeclared(cbs[i], v.fn.params[i], v.bases)
  {
    hide GetAnnotations, ScanParams, StubCallbacks, GuestCallbacks;
    AnnotationsExactly(v.bases, v.children);
    var start := Scan(map[], types, false);
    ScanFlags(start, a, 0, v.fn.params);
    ScanParamsKeeps(start, a, 0, v.fn.params, types);
    var cbs := ScanParams(start, a, 0, v.fn.params).callbacks;
    forall i | i in cbs
      ensures i < |v.fn.params| && CallbackDeclared(cbs[i], v.fn.params[i], v.bases)
    {
      assert CallbackOk(cbs[i], v.fn.params[i], ScanParams(start, a, 0, v.fn.params).types, a.customHost);
    }
  }

  lemma ApiOfDeclared(st: State, v: Visit, a: Annotations)
    requires v.ConfigSpecialization? && NamespaceRecorded(st, v) && GetAnnotations(v.bases, v.children) == Ok(a)
    ensures var k := NamespaceIndex(st.namespaces, NamespaceName(v.ns));
            ApiDeclared(ApiOf(v.fn, a, st.namespaces[k], k), v, st.namespaces)
  {
    hide GetAnnotations, VariadicArguments, HasVariadicArguments, StubCallbacks, GuestCallbacks, KnownBases,
      AllowedChildren;
    AnnotationsExactly(v.bases, v.children);
    var k := NamespaceIndex(st.namespaces, NamespaceName(v.ns));
    assert FirstNamed(st.namespaces, NameOfNamespace(v.ns), k);
    assert ServedBy(ApiOf(v.fn, a, st.namespaces[k], k), st.namespaces, k);
  }

  lemma ThunkOfDeclared(types: seq<CType>, v: Visit, a: Annotations)
    requires v.ConfigSpecialization? && GetAnnotations(v.bases, v.children) == Ok(a)
    requires v.fn.variadic ==> a.vaType.Some? && !a.customHost
    requires !ScanParams(Scan(map[], types, false), a, 0, v.fn.params).failed
    ensures ThunkDeclared(ThunkOf(v.fn, a, ScanParams(Scan(map[], types, false), a, 0, v.fn.params).callbacks), v)
  {
    hide GetAnnotations, ScanParams, IsFunctionPointer, VariadicArguments, HasVariadicArguments, StubCallbacks,
      GuestCallbacks, KnownBases, AllowedChildren, CallbackDeclared;
    AnnotationsExactly(v.bases, v.children);
    ScanDeclared(types, v, a);
  }

  lemma ConfigRecorded(st: State, v: Visit)
    requires v.ConfigSpecialization? && NamespaceRecorded(st, v) && !st.failed && !Step(st, v).failed
    ensures var st' := Step(st, v);
            && st'.namespaces == st.namespaces && st'.version == st.version
            && |st'.api| == |st.api| + 1 && st'.api[..|st.api|] == st.api
            && |st'.thunks| == |st.thunks| + 1 && st'.thunks[..|st.thunks|] == st.thunks
            && ApiDeclared(st'.api[|st.api|], v, st.namespaces) && ThunkDeclared(st'.thunks[|st.thunks|], v)
  {
    hide GetAnnotations, ScanParams, IsFunctionPointer, ThunkDeclared, ApiDeclared, ThunkOf, ApiOf, Canonical,
      NamespaceIndex;
    var a := GetAnnotations(v.bases, v.children).value;
    ApiOfDeclared(st, v, a);
    ThunkOfDeclared(st.types, v, a);
  }

  lemma TemplateRecorded(st: State, v: Visit)
    requires v.ClassTemplate? && v.name == "fex_gen_config" && !st.failed && !Step(st, v).failed
    ensures var st' := Step(st, v);
            && st'.api == st.api && st'.thunks == st.thunks
            && |st'.namespaces| == |st.namespaces| + 1 && st'.namespaces[..|st.namespaces|] == st.namespaces
            && NamespaceDeclared(st'.namespaces[|st.namespaces|], v)
            && (if v.hasDefinition && HasVersion(v.fields)
                then st'.version.Some? && LastVersion(v.fields, st'.version.value) else st'.version == st.version)
  {
    hide GetNamespaceAnnotations, HasLoader, HasVersion, LastLoader, LastVersion;
    NamespaceAnnotationsExactly(v.hasDefinition, v.bases, v.fields);
  }

  // ----- the whole run -----

  ghost predicate Recorded(st: State, configs: seq<Visit>, templates: seq<Visit>)
    requires forall i | 0 <= i < |configs| :: configs[i].ConfigSpecialization?
    requires forall i | 0 <= i < |templates| :: templates[i].ClassTemplate?
  {
    && |st.api| == |st.thunks| == |configs| && |st.namespaces| == |templates|
    && (forall i | 0 <= i < |configs| :: ApiDeclared(st.api[i], configs[i], st.namespaces))
    && (forall i | 0 <= i < |configs| :: ThunkDeclared(st.thunks[i], configs[i]))
    && (forall i | 0 <= i < |templates| :: NamespaceDeclared(st.namespaces[i], templates[i]))
    && VersionDeclared(st.version, templates)
  }

  predicate GivesVersion(v: Visit)
    requires v.ClassTemplate?
  {
    v.hasDefinition && HasVersion(v.fields)
  }

  /** The version is that of the last template that gives one. */
  ghost predicate VersionDeclared(version: Option<nat>, templates: seq<Visit>)
    requires forall i | 0 <= i < |templates| :: templates[i].ClassTemplate?
  {
    match version
    case None => forall i | 0 <= i < |templates| :: !GivesVersion(templates[i])
    case Some(n) => exists i | 0 <= i < |templates| ::
      && GivesVersion(templates[i]) && LastVersion(templates[i].fields, n)
      && forall j | i < j < |templates| :: !GivesVersion(templates[j])
  }

  lemma {:induction false} FiltersSelect(visits: seq<Visit>)
    ensures forall i | 0 <= i < |Configs(visits)| :: Configs(visits)[i].ConfigSpecialization?
    ensures forall i | 0 <= i < |Templates(visits)| ::
              Templates(visits)[i].ClassTemplate? && Templates(visits)[i].name == "fex_gen_config"
  {
    if visits != [] { FiltersSelect(visits[..|visits| - 1]); }
  }

  lemma ApiStaysDeclared(a: Api, v: Visit, namespaces: seq<Namespace>, ns: Namespace)
    requires v.ConfigSpecialization? && ApiDeclared(a, v, namespaces)
    ensures ApiDeclared(a, v, namespaces + [ns])
  {
    var k :| 0 <= k < |namespaces| && FirstNamed(namespaces, NameOfNamespace(v.ns), k) && ServedBy(a, namespaces, k);
    assert FirstNamed(namespaces + [ns], NameOfNamespace(v.ns), k) && ServedBy(a, namespaces + [ns], k);
  }

  lemma ConfigKeeps(st: State, v: Visit, configs: seq<Visit>, templates: seq<Visit>)
    requires v.ConfigSpecialization? && NamespaceRecorded(st, v) && !st.failed && !Step(st, v).failed
    requires (forall i | 0 <= i < |configs| :: configs[i].ConfigSpecialization?)
    requires forall i | 0 <= i < |templates| :: templates[i].ClassTemplate?
    requires Recorded(st, configs, templates)
    ensures forall i | 0 <= i < |configs + [v]| :: (configs + [v])[i].ConfigSpecialization?
    ensures Recorded(Step(st, v), configs + [v], templates)
  {
    hide Step, ApiDeclared, ThunkDeclared, NamespaceDeclared, VersionDeclared;
    ConfigRecorded(st, v);
    var st', cs := Step(st, v), configs + [v];
    forall i | 0 <= i < |cs|
      ensures ApiDeclared(st'.api[i], cs[i], st'.namespaces) && ThunkDeclared(st'.thunks[i], cs[i])
    {
      if i < |configs| {
        assert st'.api[i] == st'.api[..|st.api|][i] && st'.thunks[i] == st'.thunks[..|st.thunks|][i];
      }
    }
  }

  lemma VersionSnoc(version: Option<nat>, version': Option<nat>, v: Visit, templates: seq<Visit>)
    requires (forall i | 0 <= i < |templates| :: templates[i].ClassTemplate?) && v.ClassTemplate?
    requires VersionDeclared(version, templates)
    requires if GivesVersion(v) then version'.Some? && LastVersion(v.fields, version'.value) else version' == version
    ensures forall i | 0 <= i < |templates + [v]| :: (templates + [v])[i].ClassTemplate?
    ensures VersionDeclared(version', templates + [v])
  {
    var ts := templates + [v];
    if GivesVersion(v) {
      assert ts[|templates|] == v;
    } else if version.Some? {
      var i :| 0 <= i < |templates| && GivesVersion(templates[i]) && LastVersion(templates[i].fields, version.value)
        && forall j | i < j < |templates| :: !GivesVersion(templates[j]);
      assert ts[i] == templates[i] && forall j | i < j < |ts| :: !GivesVersion(ts[j]);
    }
  }

  lemma TemplateKeeps(st: State, v: Visit, configs: seq<Visit>, templates: seq<Visit>)
    requires v.ClassTemplate? && v.name == "fex_gen_config" && !st.failed && !Step(st, v).failed
    requires (forall i | 0 <= i < |configs| :: configs[i].ConfigSpecialization?)
    requires forall i | 0 <= i < |templates| :: templates[i].ClassTemplate?
    requires Recorded(st, configs, templates)
    ensures forall i | 0 <= i < |templates + [v]| :: (templates + [v])[i].ClassTemplate?
    ensures Recorded(Step(st, v), configs, templates + [v])
  {
    hide Step, ApiDeclared, ThunkDeclared, NamespaceDeclared, VersionDeclared, HasVersion, LastVersion;
    TemplateRecorded(st, v);
    var st', ts := Step(st, v), templates + [v];
    VersionSnoc(st.version, st'.version, v, templates);
    assert st'.namespaces == st.namespaces + [st'.namespaces[|st.namespaces|]];
    forall i | 0 <= i < |configs|
      ensures ApiDeclared(st'.api[i], configs[i], st'.namespaces)
    {
      ApiStaysDeclared(st.api[i], configs[i], st.namespaces, st'.namespaces[|st.namespaces|]);
    }
    forall i | 0 <= i < |ts|
      ensures NamespaceDeclared(st'.namespaces[i], ts[i])
    {
      if i < |templates| { assert st'.namespaces[i] == st'.namespaces[..|st.namespaces|][i]; }
    }
  }

  /**
   In every run without an error the API functions and thunks are the configured functions, in order and as they are
   declared and annotated, and the namespaces are the templates.
   */
  lemma {:induction false} RunRecorded(visits: seq<Visit>, states: seq<State>, n: nat)
    requires Run(visits, states) && n < |states| && !states[n].failed
    ensures forall i | 0 <= i < |Configs(visits[..n])| :: Configs(visits[..n])[i].ConfigSpecialization?
    ensures forall i | 0 <= i < |Templates(visits[..n])| :: Templates(visits[..n])[i].ClassTemplate?
    ensures Recorded(states[n], Configs(visits[..n]), Templates(visits[..n]))
  {
    FiltersSelect(visits[..n]);
    if n > 0 {
      hide Step, Recorded, NamespaceRecorded;
      var st, v := states[n - 1], visits[n - 1];
      assert Steps(st, v, states[n]);
      RunRecorded(visits, states, n - 1);
      assert visits[..n][..n - 1] == visits[..n - 1] && visits[..n][n - 1] == v;
      var cs, ts := Configs(visits[..n - 1]), Templates(visits[..n - 1]);
      assert cs + [] == cs && ts + [] == ts;
      if v.ConfigSpecialization? {
        ConfigKeeps(st, v, cs, ts);
      } else if v.ClassTemplate? && v.name == "fex_gen_config" {
        TemplateKeeps(st, v, cs, ts);
      } else {
        OtherKeeps(st, v, cs, ts);
      }
    }
  }

  lemma OtherKeeps(st: State, v: Visit, configs: seq<Visit>, templates: seq<Visit>)
    requires NamespaceRecorded(st, v) && !v.ConfigSpecialization? && !(v.ClassTemplate? && v.name == "fex_gen_config")
    requires (forall i | 0 <= i < |configs| :: configs[i].ConfigSpecialization?)
    requires forall i | 0 <= i < |templates| :: templates[i].ClassTemplate?
    requires Recorded(st, configs, templates)
    ensures Recorded(Step(st, v), configs, templates)
  {
    hide ApiDeclared, ThunkDeclared, NamespaceDeclared, VersionDeclared, Canonical;
  }

  // ----- consequences -----

  lemma {:induction false} AliasListed(api: seq<Api>, name: string)
    ensures FindAlias(Aliases(api), name).Some?
            <==> exists i | 0 <= i < |api| :: api[i].name == name && !api[i].customGuest
  {
    if api != [] {
      var rest := api[1..];
      AliasListed(rest, name);
      assert forall i | 0 < i < |api| :: api[i] == rest[i - 1];
      assert (exists i | 0 <= i < |api| :: api[i].name == name && !api[i].customGuest)
        <==> (api[0].name == name && !api[0].customGuest)
             || exists i | 0 <= i < |rest| :: rest[i].name == name && !rest[i].customGuest by {
        if i :| 0 <= i < |rest| && rest[i].name == name && !rest[i].customGuest { assert api[i + 1] == rest[i]; }
      }
      if api[0].customGuest {
        assert Aliases(api) == [] + Aliases(rest) == Aliases(rest);
      } else {
        assert Aliases(api) == [AliasOf(api[0])] + Aliases(rest) && Aliases(api)[1..] == Aliases(rest);
      }
    }
  }

  /** A function has a public entry point if and only if it is declared, not variadic, and has none written by hand. */
  lemma PublicExactly(visits: seq<Visit>, states: seq<State>, n: nat, name: string)
    requires Run(visits, states) && n < |states| && !states[n].failed
    ensures forall i | 0 <= i < |Configs(visits[..n])| :: Configs(visits[..n])[i].ConfigSpecialization?
    ensures FindAlias(Aliases(states[n].api), name).Some?
            <==> exists i | 0 <= i < |Configs(visits[..n])| ::
                   var v := Configs(visits[..n])[i];
                   v.fn.name == name && !v.fn.variadic && "fexgen::custom_guest_entrypoint" !in v.bases
  {
    hide Configs, Templates, Aliases, FindAlias, ThunkDeclared, NamespaceDeclared, VersionDeclared, FirstNamed,
      ServedBy;
    RunRecorded(visits, states, n);
    AliasListed(states[n].api, name);
    var cs, api := Configs(visits[..n]), states[n].api;
    forall i | 0 <= i < |cs|
      ensures api[i].name == cs[i].fn.name
      ensures api[i].customGuest <==> cs[i].fn.variadic || "fexgen::custom_guest_entrypoint" in cs[i].bases
    {
      assert ApiDeclared(api[i], cs[i], states[n].namespaces);
    }
  }

  // ----- which declarations are accepted -----

  /** The parameters go with the callback strategy. */
  predicate CallbacksAllowed(bases: seq<string>, params: seq<CType>) {
    && (forall i | 0 <= i < |params| && IsFunctionPointer(params[i]) ::
          && (GuestCallbacks(bases) ==> "fexgen::custom_host_impl" in bases)
          && (Callee(params[i]).variadic ==> StubCallbacks(bases)))
    && forall i, j | 0 <= i < j < |params| :: !(IsFunctionPointer(params[i]) && IsFunctionPointer(params[j]))
  }

  /** A configured function is accepted if and only if it is declared by these rules. */
  lemma ConfigAcceptedExactly(st: State, v: Visit)
    requires !st.failed && v.ConfigSpecialization? && NamespaceRecorded(st, v)
    ensures !Step(st, v).failed
            <==> && !v.explicitInstantiation && KnownBases(v.bases) && AllowedChildren(v.children)
                 && (IsFunctionPointer(v.fn.ret) ==> "fexgen::returns_guest_pointer" in v.bases)
                 && CallbacksAllowed(v.bases, v.fn.params)
                 && (v.fn.variadic ==> HasVariadicArguments(v.children) && "fexgen::custom_host_impl" !in v.bases)
  {
    hide GetAnnotations, VisitConfig, KnownBases, AllowedChildren, HasVariadicArguments, StubCallbacks, GuestCallbacks,
      VariadicArguments, IsFunctionPointer, Callee;
    AnnotationsExactly(v.bases, v.children);
    AcceptedExactly(st, v);
  }

  /** A template is accepted unless its definition has another base or member, or versions a named namespace. */
  lemma TemplateAcceptedExactly(st: State, v: Visit)
    requires !st.failed && v.ClassTemplate?
    ensures !Step(st, v).failed
            <==> v.name != "fex_gen_config" || !v.hasDefinition
                 || (KnownNamespaceBases(v.bases) && AllowedFields(v.fields) && (HasVersion(v.fields) ==> v.ns == None))
  {
    hide GetNamespaceAnnotations, KnownNamespaceBases, AllowedFields, HasVersion, HasLoader, LastLoader, LastVersion;
    NamespaceAnnotationsExactly(v.hasDefinition, v.bases, v.fields);
  }
}
