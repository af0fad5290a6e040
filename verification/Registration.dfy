/** What a run has recorded, in terms of the declarations it has visited. */
module Registration {
  import opened Options
  import opened CTypes
  import opened Generator
  import opened GeneratorInvariant
  import opened DeclaredAnnotations
  import opened IndirectCalls
  import opened PackedArguments
  import opened StructLayout
  import opened Emission
  import opened ThunkRuntime
  import opened Compilation
  import opened MeaningPreservation

  function FunctionType(fn: Function): CType {
    Canonical(Fn(fn.ret, fn.params, fn.variadic))
  }

  function NamespacePosition(st: State, v: Visit): (k: nat)
    requires v.ConfigSpecialization? && NamespaceRecorded(st, v)
    ensures k < |st.namespaces|
  {
    NamespaceIndex(st.namespaces, NamespaceName(v.ns))
  }

  function NamespaceOf(st: State, v: Visit): Namespace
    requires v.ConfigSpecialization? && NamespaceRecorded(st, v)
  {
    st.namespaces[NamespacePosition(st, v)]
  }

  /** Parameter `i` is a pointer to functions of type `t`. */
  predicate PointsTo(params: seq<CType>, i: nat, t: CType)
    requires i < |params|
  {
    IsFunctionPointer(params[i]) && Callee(params[i]) == t
  }

  /** Callbacks are called by host code unless they are annotated otherwise. */
  predicate CallsBack(bases: seq<string>) {
    "fexgen::callback_stub" !in bases && "fexgen::callback_guest" !in bases
  }

  /** The declaration makes function type `t` callable through pointers. */
  predicate Registers(st: State, v: Visit, t: CType) {
    match v
    case TypeSpecialization(u) => Canonical(u) == t
    case ConfigSpecialization(_, _, fn, bases, _) =>
      && NamespaceRecorded(st, v)
      && ((NamespaceOf(st, v).indirect && FunctionType(fn) == t)
          || (CallsBack(bases) && exists i | 0 <= i < |fn.params| :: PointsTo(fn.params, i, t)))
    case _ => false
  }

  lemma {:induction false} ScanRegisters(s: Scan, a: Annotations, i: nat, params: seq<CType>, t: CType)
    requires i <= |params| && !s.failed && !ScanParams(s, a, i, params).failed
    ensures t in ScanParams(s, a, i, params).types
            <==> t in s.types || (a.strategy == Default && exists j | i <= j < |params| :: PointsTo(params, j, t))
    decreases |params| - i
  {
    if i < |params| {
      var s' := ScanParam(s, a, i, params[i]);
      ScanRegisters(s', a, i + 1, params, t);
      assert t in s'.types <==> t in s.types || (a.strategy == Default && PointsTo(params, i, t));
    }
  }

  lemma StepRegisters(st: State, v: Visit, t: CType)
    requires !st.failed && NamespaceRecorded(st, v) && !Step(st, v).failed
    ensures t in Step(st, v).types <==> t in st.types || Registers(st, v, t)
  {
    if v.ConfigSpecialization? {
      hide ScanParams, GetAnnotations, Canonical, PointsTo, StubCallbacks, GuestCallbacks, KnownBases, AllowedChildren,
        VariadicArguments, HasVariadicArguments;
      var a := GetAnnotations(v.bases, v.children).value;
      AnnotationsExactly(v.bases, v.children);
      DefaultStrategy(v.bases);
      ScanRegisters(Scan(map[], st.types, false), a, 0, v.fn.params, t);
    }
  }

  lemma {:induction false} EarlierNotFailed(visits: seq<Visit>, states: seq<State>, i: nat, n: nat)
    requires Run(visits, states) && i <= n < |states| && !states[n].failed
    ensures !states[i].failed
    decreases n
  {
    if i < n {
      assert Steps(states[n - 1], visits[n - 1], states[n]);
      EarlierNotFailed(visits, states, i, n - 1);
    }
  }

  /** A function type is callable through pointers if and only if one of the declarations makes it so. */
  lemma {:induction false} RegisteredExactly(visits: seq<Visit>, states: seq<State>, n: nat, t: CType)
    requires Run(visits, states) && n < |states| && !states[n].failed
    ensures t in states[n].types <==> exists i | 0 <= i < n :: Registers(states[i], visits[i], t)
  {
    if n > 0 {
      hide Registers, Step;
      assert Steps(states[n - 1], visits[n - 1], states[n]);
      EarlierNotFailed(visits, states, n - 1, n);
      RegisteredExactly(visits, states, n - 1, t);
      StepRegisters(states[n - 1], visits[n - 1], t);
    }
  }

  /** The visited declaration is that of API function `a`. */
  predicate DeclaresApi(st: State, v: Visit, a: Api) {
    && v.ConfigSpecialization? && NamespaceRecorded(st, v)
    && FunctionType(v.fn) == SignatureOf(a)
    && a.symtable == if NamespaceOf(st, v).symtable then Some(NamespacePosition(st, v)) else None
  }

  lemma StepDeclares(st: State, v: Visit)
    requires !st.failed && NamespaceRecorded(st, v) && !Step(st, v).failed
    ensures if v.ConfigSpecialization? then |Step(st, v).api| == |st.api| + 1
            && DeclaresApi(st, v, Step(st, v).api[|st.api|])
            else Step(st, v).api == st.api
    ensures st.api <= Step(st, v).api
  {
    hide ScanParams, GetAnnotations, Canonical;
  }

  /** Every API function has its declaration, and every declared function is in the API. */
  lemma {:induction false} ApiHasDeclaration(visits: seq<Visit>, states: seq<State>, n: nat, j: nat)
    requires Run(visits, states) && n < |states| && !states[n].failed && j < |states[n].api|
    ensures exists i | 0 <= i < n :: DeclaresApi(states[i], visits[i], states[n].api[j])
  {
    hide DeclaresApi, Step;
    assert n > 0;
    assert Steps(states[n - 1], visits[n - 1], states[n]);
    EarlierNotFailed(visits, states, n - 1, n);
    StepDeclares(states[n - 1], visits[n - 1]);
    if j < |states[n - 1].api| {
      ApiHasDeclaration(visits, states, n - 1, j);
      var i :| 0 <= i < n - 1 && DeclaresApi(states[i], visits[i], states[n - 1].api[j]);
      assert DeclaresApi(states[i], visits[i], states[n].api[j]);
    }
  }

  lemma {:induction false} DeclarationHasApi(visits: seq<Visit>, states: seq<State>, n: nat, i: nat)
    requires Run(visits, states) && i < n < |states| && !states[n].failed && visits[i].ConfigSpecialization?
    ensures exists j | 0 <= j < |states[n].api| :: DeclaresApi(states[i], visits[i], states[n].api[j])
  {
    hide DeclaresApi, Step;
    assert Steps(states[n - 1], visits[n - 1], states[n]);
    EarlierNotFailed(visits, states, n - 1, n);
    StepDeclares(states[n - 1], visits[n - 1]);
    if i < n - 1 {
      DeclarationHasApi(visits, states, n - 1, i);
      var j :| 0 <= j < |states[n - 1].api| && DeclaresApi(states[i], visits[i], states[n - 1].api[j]);
      assert DeclaresApi(states[i], visits[i], states[n].api[j]);
    } else {
      assert DeclaresApi(states[i], visits[i], states[n].api[|states[i].api|]);
    }
  }

  /** The visited declaration is of a function outside the symbol tables. */
  predicate OutsideTables(st: State, v: Visit) {
    v.ConfigSpecialization? && NamespaceRecorded(st, v) && !NamespaceOf(st, v).symtable
  }

  /** The visited declaration is of a function that is put into symbol list `k`. */
  predicate ListedIn(st: State, v: Visit, k: nat) {
    && v.ConfigSpecialization? && NamespaceRecorded(st, v)
    && k == if NamespaceOf(st, v).symtable then NamespacePosition(st, v) else 0
  }

  predicate RegisteredBy(visits: seq<Visit>, states: seq<State>, n: nat, t: CType)
    requires n <= |visits| && n < |states|
  {
    exists i | 0 <= i < n :: Registers(states[i], visits[i], t)
  }

  /** All functions declared for list `k` have callable types. */
  predicate ListedCallable(visits: seq<Visit>, states: seq<State>, n: nat, k: nat)
    requires n <= |visits| && n < |states|
  {
    forall i | 0 <= i < n && ListedIn(states[i], visits[i], k) :: CallableType(FunctionType(visits[i].fn))
  }

  /** All functions declared outside the symbol tables have types that some declaration makes known. */
  predicate OutsideRegistered(visits: seq<Visit>, states: seq<State>, n: nat)
    requires n <= |visits| && n < |states|
  {
    forall i | 0 <= i < n && OutsideTables(states[i], visits[i]) ::
      RegisteredBy(visits, states, n, FunctionType(visits[i].fn))
  }

  lemma ListedByDeclarations(visits: seq<Visit>, states: seq<State>, n: nat, k: nat)
    requires Run(visits, states) && n < |states| && !states[n].failed
    ensures ListedCallable(visits, states, n, k)
            <==> forall j | 0 <= j < |states[n].api| && ListOf(states[n].api[j]) == k ::
                   CallableType(SignatureOf(states[n].api[j]))
  {
    assert n <= |visits|;
    hide CallableType, FunctionType, SignatureOf, Run, Step, NamespacePosition;
    if ListedCallable(visits, states, n, k) {
      forall j | 0 <= j < |states[n].api| && ListOf(states[n].api[j]) == k
        ensures CallableType(SignatureOf(states[n].api[j]))
      {
        ApiHasDeclaration(visits, states, n, j);
        var i :| 0 <= i < n && DeclaresApi(states[i], visits[i], states[n].api[j]);
        assert ListedIn(states[i], visits[i], k);
      }
    } else {
      var i :| 0 <= i < n && ListedIn(states[i], visits[i], k) && !CallableType(FunctionType(visits[i].fn));
      DeclarationHasApi(visits, states, n, i);
      var j :| 0 <= j < |states[n].api| && DeclaresApi(states[i], visits[i], states[n].api[j]);
      assert ListOf(states[n].api[j]) == k;
    }
  }

  lemma OutsideByDeclarations(visits: seq<Visit>, states: seq<State>, n: nat)
    requires Run(visits, states) && n < |states| && !states[n].failed
    ensures OutsideRegistered(visits, states, n)
            <==> forall j | 0 <= j < |states[n].api| && states[n].api[j].symtable == None ::
                   SignatureOf(states[n].api[j]) in states[n].types
  {
    assert n <= |visits|;
    hide FunctionType, SignatureOf, Run, Step, NamespacePosition, Registers;
    if OutsideRegistered(visits, states, n) {
      forall j | 0 <= j < |states[n].api| && states[n].api[j].symtable == None
        ensures SignatureOf(states[n].api[j]) in states[n].types
      {
        ApiHasDeclaration(visits, states, n, j);
        var i :| 0 <= i < n && DeclaresApi(states[i], visits[i], states[n].api[j]);
        assert OutsideTables(states[i], visits[i]);
        RegisteredExactly(visits, states, n, SignatureOf(states[n].api[j]));
      }
    } else {
      var i :| 0 <= i < n && OutsideTables(states[i], visits[i])
        && !RegisteredBy(visits, states, n, FunctionType(visits[i].fn));
      DeclarationHasApi(visits, states, n, i);
      var j :| 0 <= j < |states[n].api| && DeclaresApi(states[i], visits[i], states[n].api[j]);
      RegisteredExactly(visits, states, n, FunctionType(visits[i].fn));
    }
  }

  /**
   The list of a namespace with a symbol table and indirect calls is callable if and only if the functions declared
   for it have callable types, and, for the first list, those declared outside the tables have known types.
   */
  lemma ListsCallableByDeclarations(visits: seq<Visit>, states: seq<State>, n: nat, k: nat)
    requires Run(visits, states) && n < |states| && !states[n].failed && k < |states[n].namespaces|
    requires states[n].namespaces[k].symtable && states[n].namespaces[k].indirect
    ensures |states[n].thunks| == |states[n].api|
    ensures ListCallable(states[n], k)
            <==> ListedCallable(visits, states, n, k) && (k > 0 || OutsideRegistered(visits, states, n))
  {
    RunKeeps(visits, states, n);
    AsLong(states[n]);
    hide Invariant, ListCallable, ListedCallable, OutsideRegistered, SignatureOf, CallableType;
    ListsCallable(states[n], k);
    ListedByDeclarations(visits, states, n, k);
    OutsideByDeclarations(visits, states, n);
  }

  lemma AsLong(st: State)
    requires Invariant(st) && !st.failed
    ensures |st.thunks| == |st.api|
  {
  }

  // ----- types that host code cannot call -----

  /** A declaration that registers a type that is not callable breaks every call into its library. */
  lemma UncallableBroken(visits: seq<Visit>, states: seq<State>, n: nat, i: nat, t: CType, lib: string, sha: Sha,
      m: Machine, name: string, args: seq<Value>, stack: Memory, w: World)
    requires Run(visits, states) && i < n < |states| && !states[n].failed && WellFormedState(states[n])
             && ValidAbi(m.abi)
    requires Registers(states[i], visits[i], t) && !CallableType(t)
    ensures CallPacker(FilesOf(lib, sha, states[n]), m, name, args, stack, w) == Broken
  {
    hide Registers, CallableType, WellFormedState, FilesOf, CallPacker, Run;
    RunKeeps(visits, states, n);
    RegisteredExactly(visits, states, n, t);
    UncallableRegistered(states[n], t);
    CallBroken(lib, sha, states[n], m, name, args, stack, w);
  }

  lemma UncallableRegistered(st: State, t: CType)
    requires t in st.types && !CallableType(t)
    ensures !CompilableLibrary(st)
  {
    var k :| 0 <= k < |st.types| && st.types[k] == t;
  }

  /** An instance: a variadic function of a namespace with indirect calls. */
  lemma VariadicIndirectBroken(visits: seq<Visit>, states: seq<State>, n: nat, i: nat, lib: string, sha: Sha,
      m: Machine, name: string, args: seq<Value>, stack: Memory, w: World)
    requires Run(visits, states) && i < n < |states| && !states[n].failed && WellFormedState(states[n])
             && ValidAbi(m.abi)
    requires visits[i].ConfigSpecialization? && visits[i].fn.variadic
    requires NamespaceRecorded(states[i], visits[i]) && NamespaceOf(states[i], visits[i]).indirect
    ensures CallPacker(FilesOf(lib, sha, states[n]), m, name, args, stack, w) == Broken
  {
    var t := FunctionType(visits[i].fn);
    assert Registers(states[i], visits[i], t) && !CallableType(t);
    UncallableBroken(visits, states, n, i, t, lib, sha, m, name, args, stack, w);
  }

  /** Further instances: an ellipsis, a constant result, no function at all, and too many parameters. */
  lemma UncallableTypes(n: nat)
    ensures var int_t, const_int := Named(false, Builtin("int")), Named(true, Builtin("int"));
            && !CallableType(Fn(int_t, [int_t], true)) && !CallableType(Fn(const_int, [], false))
               && !CallableType(int_t)
            && (CallableType(Fn(int_t, seq(n, _ => int_t), false)) <==> n <= 13 || n == 23)
            && (CallableType(Fn(VOID, seq(n, _ => int_t), false)) <==> n <= 18)
  {
  }
}
