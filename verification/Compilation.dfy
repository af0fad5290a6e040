/** Exactly which libraries are emitted as code that compiles. */
module Compilation {
  import opened Options
  import opened CTypes
  import opened Declarators
  import opened DeclarationPrinting
  import opened Texts
  import opened StructLayout
  import opened DigestText
  import opened PackedArguments
  import opened Generator
  import opened GeneratorInvariant
  import opened Emission
  import opened ThunkRuntime
  import opened ThunkStructs

  /** A parameter list that can be printed where names are not needed. */
  predicate PrintableList(params: seq<CType>, variadic: bool) {
    && (variadic ==> params != [])
    && forall i | 0 <= i < |params| :: PrintsAsParameter(params[i])
  }

  /** A stub can be defined: the result type is printed before its name, as if it were a specifier. */
  predicate PrintableStub(f: CType) {
    f.Fn? && PointerChain(f.ret) && PrintableList(f.params, f.variadic)
  }

  predicate PrintableStubs(t: Thunk) {
    forall k | k in t.callbacks && t.callbacks[k].isStub :: PrintableStub(t.callbacks[k].spelled)
  }

  predicate DefaultCallback(t: Thunk, k: nat) {
    k in t.callbacks && !t.callbacks[k].isStub && !t.callbacks[k].isGuest
  }

  /** The guest's side asserts against callbacks with 23 parameters. */
  predicate PassableCallbacks(t: Thunk) {
    forall k | k in t.callbacks && DefaultCallback(t, k) && t.callbacks[k].callee.Fn? ::
      |t.callbacks[k].callee.params| != 23
  }

  /** What a library's declarations must be for its generated code to compile. */
  predicate CompilableLibrary(st: State) {
    && (forall i | 0 <= i < |st.thunks| ::
          PrintableThunk(st.thunks[i]) && PrintableStubs(st.thunks[i]) && PassableCallbacks(st.thunks[i]))
    && (forall i | 0 <= i < |st.api| :: PrintableList(st.api[i].params, st.api[i].variadic))
    && (forall i | 0 <= i < |st.types| :: CallableType(st.types[i]))
  }

  predicate WellFormedTypes(ts: seq<CType>) {
    forall i | 0 <= i < |ts| :: WellFormed(ts[i])
  }

  /** The recorded types are C types. */
  predicate WellFormedState(st: State) {
    && (forall i | 0 <= i < |st.thunks| :: WellFormedTypes(st.thunks[i].params) && WellFormed(st.thunks[i].ret))
    && (forall i | 0 <= i < |st.api| :: WellFormedTypes(st.api[i].params))
    && WellFormedTypes(st.types)
    && (forall i | 0 <= i < |st.thunks| :: ProperSignature(st.thunks[i].ret, st.thunks[i].params))
    && (forall i | 0 <= i < |st.api| :: ProperSignature(st.api[i].ret, st.api[i].params))
    && (forall i | 0 <= i < |st.types| :: ProperType(st.types[i]))
  }

  /** No function has a parameter of type void or of a function type, nor returns a function, also behind typedefs. */
  predicate ProperType(t: CType)
    decreases t
  {
    match t
    case Named(_, Builtin(_)) => true
    case Named(_, Typedef(_, m)) => ProperType(m)
    case Ptr(_, p) => ProperType(p)
    case Fn(r, ps, _) =>
      && ProperType(r) && !Canonical(r).Fn?
      && forall i | 0 <= i < |ps| :: ProperType(ps[i]) && IsObject(ps[i])
  }

  predicate IsObject(t: CType) { !IsVoid(t) && !Canonical(t).Fn? }

  predicate ProperSignature(ret: CType, params: seq<CType>) {
    && ProperType(ret) && !Canonical(ret).Fn?
    && forall i | 0 <= i < |params| :: ProperType(params[i]) && IsObject(params[i])
  }

  // ----- well-formed types stay so -----

  lemma {:induction false} UnqualifiedWellFormed(t: CType)
    requires WellFormed(t)
    ensures WellFormed(Unqualified(t))
    decreases t
  {
    match t
    case Named(_, Typedef(_, m)) => UnqualifiedWellFormed(m);
    case _ =>
  }

  lemma {:induction false} SpelledWellFormed(t: CType)
    requires WellFormed(t) && IsFunctionPointer(t)
    ensures WellFormed(SpelledCallee(t))
    decreases t
  {
    match t
    case Named(_, Typedef(_, m)) => SpelledWellFormed(m);
    case Ptr(_, p) => SpelledFunctionWellFormed(p);
  }

  lemma {:induction false} SpelledFunctionWellFormed(t: CType)
    requires WellFormed(t) && Canonical(t).Fn?
    ensures WellFormed(SpelledFunction(t))
    decreases t
  {
    match t
    case Named(_, Typedef(_, m)) => SpelledFunctionWellFormed(m);
    case Fn(_, _, _) =>
  }

  // ----- one piece of code -----

  lemma ListExactly(params: seq<CType>, variadic: bool)
    requires WellFormedTypes(params)
    ensures ListCompiles(ParamDecls(params), variadic) <==> PrintableList(params, variadic)
  {
    forall i | 0 <= i < |params|
      ensures ParseDeclaration(ParamDecls(params)[i]).Some? <==> PrintsAsParameter(params[i])
    {
      FormatDeclParses(params[i], ArgName(i));
    }
  }

  lemma StubExactly(name: string, k: nat, f: CType)
    requires f.Fn? && WellFormed(f)
    ensures StubCompiles(StubOf(name, k, f)) <==> PrintableStub(f)
  {
    ListExactly(f.params, f.variadic);
    if PointerChain(f.ret) {
      AppendedOnChain(f.ret, StubName(name, k));
    } else {
      AppendedElsewhere(f.ret, StubName(name, k));
    }
  }

  /** The members of a thunk's structs can be assigned to, unless its result is constant. */
  lemma FieldsAssignable(t: Thunk)
    ensures (forall i | 0 <= i < |Fields(t)| :: !IsConst(Fields(t)[i].ctype)) <==> IsVoid(t.ret) || !IsConst(t.ret)
  {
    forall i | 0 <= i < |t.params|
      ensures !IsConst(Fields(t)[i].ctype)
    {
      UnqualifiedKeeps(t.params[i]);
    }
    if !IsVoid(t.ret) { assert Fields(t)[|t.params|] == Member("rv", t.ret); }
  }

  lemma PrintedParamsMissing(t: Thunk, i: nat)
    requires i < |t.params| && WellFormed(t.params[i])
             && !(Declarable(t.params[i]) && Declarable(Unqualified(t.params[i])))
    ensures MembersOf(ParamDecls(t.params)) == None || MembersOf(StructMembers(t)) == None
  {
    if !Declarable(t.params[i]) {
      FormatDeclCorrect(t.params[i], ArgName(i));
      MemberMissing(ParamDecls(t.params), i);
    } else {
      UnqualifiedWellFormed(t.params[i]);
      FormatDeclCorrect(Unqualified(t.params[i]), ArgName(i));
      assert StructMembers(t)[i] == FormatDecl(Unqualified(t.params[i]), ArgName(i));
      MemberMissing(StructMembers(t), i);
    }
  }

  lemma PrintedResultMissing(t: Thunk)
    requires !IsVoid(t.ret) && WellFormed(t.ret) && !Declarable(t.ret)
    ensures MembersOf(StructMembers(t)) == None
  {
    FormatDeclCorrect(t.ret, "rv");
    assert StructMembers(t)[|t.params|] == FormatDecl(t.ret, "rv");
    MemberMissing(StructMembers(t), |t.params|);
  }

  lemma DeclarationsExactly(t: Thunk)
    requires WellFormedTypes(t.params) && WellFormed(t.ret)
    ensures PrintableThunk(t)
            <==> MembersOf(ParamDecls(t.params)).Some? && MembersOf(StructMembers(t)).Some?
                 && forall i | 0 <= i < |MembersOf(StructMembers(t)).value| ::
                      !IsConst(MembersOf(StructMembers(t)).value[i].ctype)
    ensures PrintableThunk(t) ==>
              MembersOf(ParamDecls(t.params)) == Some(Params(t.params))
                  && MembersOf(StructMembers(t)) == Some(Fields(t))
  {
    hide MembersOf, FormatDecl, Declarable, IsConst;
    forall i | 0 <= i < |t.params|
      ensures WellFormed(Unqualified(t.params[i]))
    {
      UnqualifiedWellFormed(t.params[i]);
    }
    if i :| 0 <= i < |t.params| && !(Printable(t.params[i]) && Printable(Unqualified(t.params[i]))) {
      PrintedParamsMissing(t, i);
    } else if !IsVoid(t.ret) && !Printable(t.ret) {
      PrintedResultMissing(t);
    } else {
      ParamsParse(t.params);
      StructParses(t);
      FieldsAssignable(t);
    }
  }

  lemma ArgumentExactly(t: Thunk, i: nat)
    requires CallbacksFit(t) && i < |t.params|
    ensures ArgumentCompiles(Params(t.params), PackerWrite(t, i).value)
            <==> (DefaultCallback(t, i) ==> UnpackCompiles(t.callbacks[i].callee))
  {
    hide UnpackCompiles;
    FieldNamesDistinct(t);
    FindDistinct(Params(t.params), i);
  }

  lemma ParameterExactly(t: Thunk, i: nat)
    requires CallbacksFit(t) && i < |t.params|
    ensures ParameterCompiles(Fields(t), HostArg(t, i))
            <==> (DefaultCallback(t, i) ==> CallGuestPtrCompiles(t.callbacks[i].callee))
                 && (i in t.callbacks && t.callbacks[i].isGuest && !t.callbacks[i].isStub ==>
                       !t.callbacks[i].callee.variadic)
  {
    hide CallGuestPtrCompiles;
    FieldNamesDistinct(t);
    FindDistinct(Fields(t), i);
    UnqualifiedKeeps(t.params[i]);
    assert Fields(t)[i] == Member(ArgName(i), Unqualified(t.params[i]));
  }

  lemma PackerExactly(lib: string, t: Thunk)
    requires WellFormedTypes(t.params) && WellFormed(t.ret) && CallbacksFit(t)
    ensures PackerCompiles(PackerOf(lib, t))
            <==> PrintableThunk(t) && forall k | DefaultCallback(t, k) :: UnpackCompiles(t.callbacks[k].callee)
  {
    hide MembersOf, PrintableThunk, ArgumentCompiles, UnpackCompiles, IsConst, ParamDecls, StructMembers, Params,
        PackerWrite;
    DeclarationsExactly(t);
    var p := PackerOf(lib, t);
    forall i | 0 <= i < |t.params|
      ensures ArgumentCompiles(Params(t.params), p.writes[i].value)
              <==> (DefaultCallback(t, i) ==> UnpackCompiles(t.callbacks[i].callee))
    {
      ArgumentExactly(t, i);
    }
  }

  lemma UnpackerExactly(lib: string, t: Thunk)
    requires WellFormedTypes(t.params) && WellFormed(t.ret) && CallbacksFit(t) && PrintableThunk(t)
    requires forall k | k in t.callbacks && !t.callbacks[k].isStub :: !t.callbacks[k].callee.variadic
    ensures UnpackerCompiles(UnpackerOf(lib, t))
            <==> forall k | DefaultCallback(t, k) :: CallGuestPtrCompiles(t.callbacks[k].callee)
  {
    DeclarationsExactly(t);
    FieldsAssignable(t);
    assert !IsVoid(t.ret) ==> !IsConst(t.ret);
    hide MembersOf, PrintableThunk, ParameterCompiles, CallGuestPtrCompiles, IsConst, StructMembers, Fields, HostArg,
      CalleeName, UnpackName;
    var u := UnpackerOf(lib, t);
    forall i | 0 <= i < |t.params|
      ensures ParameterCompiles(Fields(t), u.args[i])
              <==> (DefaultCallback(t, i) ==> CallGuestPtrCompiles(t.callbacks[i].callee))
    {
      ParameterExactly(t, i);
    }
  }

  lemma ExportExactly(lib: string, sha: Sha, t: CType)
    requires WellFormed(t)
    ensures ExportCompiles(CallbackExport(lib, sha, t)) <==> CallableType(t)
  {
    hide HostDigest, Message, CallbackTarget, Signature, ForIndirectCallCompiles;
    SignatureParses(t);
    CallableExactly(t);
  }

  // ----- the whole library -----

  lemma StubsExactly(st: State, i: nat)
    requires Invariant(st) && WellFormedState(st) && i < |st.thunks|
    ensures forall k | k in st.thunks[i].callbacks :: st.thunks[i].callbacks[k].spelled.Fn?
    ensures PrintableStubs(st.thunks[i])
            <==> forall k | k in st.thunks[i].callbacks && st.thunks[i].callbacks[k].isStub ::
                   StubCompiles(StubOf(st.thunks[i].name, k, st.thunks[i].callbacks[k].spelled))
  {
    var t := st.thunks[i];
    assert Corresponds(t, st.api[i], st.types);
    forall k | k in t.callbacks
      ensures t.callbacks[k].spelled.Fn? && WellFormed(t.callbacks[k].spelled)
      ensures StubCompiles(StubOf(t.name, k, t.callbacks[k].spelled)) <==> PrintableStub(t.callbacks[k].spelled)
    {
      assert CallbackOk(t.callbacks[k], t.params[k], st.types, t.customHost && !t.variadic);
      SpelledWellFormed(t.params[k]);
      StubExactly(t.name, k, t.callbacks[k].spelled);
    }
  }

  lemma AllStubsExactly(st: State)
    requires Invariant(st) && WellFormedState(st)
    ensures (forall s | s in Stubs(st.thunks) :: StubCompiles(s))
            <==> forall i | 0 <= i < |st.thunks| :: PrintableStubs(st.thunks[i])
  {
    hide StubCompiles, PrintableStubs, StubOf, Invariant, WellFormedState;
    forall i | 0 <= i < |st.thunks|
      ensures forall k | k in st.thunks[i].callbacks :: st.thunks[i].callbacks[k].spelled.Fn?
      ensures PrintableStubs(st.thunks[i])
              <==> forall k | k in st.thunks[i].callbacks && st.thunks[i].callbacks[k].isStub ::
                     StubCompiles(StubOf(st.thunks[i].name, k, st.thunks[i].callbacks[k].spelled))
    {
      StubsExactly(st, i);
    }
  }

  lemma {:induction false} AliasFrom(api: seq<Api>, alias: PublicAlias) returns (i: nat)
    requires alias in Aliases(api)
    ensures i < |api| && !api[i].customGuest && alias == AliasOf(api[i])
  {
    if !api[0].customGuest && alias == AliasOf(api[0]) {
      i := 0;
    } else {
      i := AliasFrom(api[1..], alias);
      i := i + 1;
    }
  }

  lemma ListsExactly(lib: string, st: State)
    requires WellFormedState(st)
    ensures (forall i | 0 <= i < |st.api| ::
            ListCompiles(Pointers(lib, st.api)[i].params, Pointers(lib, st.api)[i].variadic))
            <==> forall i | 0 <= i < |st.api| :: PrintableList(st.api[i].params, st.api[i].variadic)
    ensures (forall i | 0 <= i < |st.api| :: PrintableList(st.api[i].params, st.api[i].variadic))
            ==> forall i | 0 <= i < |Aliases(st.api)| :: ListCompiles(Aliases(st.api)[i].params, false)
  {
    hide ParamDecls, LoaderPointer;
    forall i | 0 <= i < |st.api|
      ensures ListCompiles(Pointers(lib, st.api)[i].params, Pointers(lib, st.api)[i].variadic)
              <==> PrintableList(st.api[i].params, st.api[i].variadic)
    {
      ListExactly(st.api[i].params, st.api[i].variadic);
    }
    if forall i | 0 <= i < |st.api| :: PrintableList(st.api[i].params, st.api[i].variadic) {
      forall i | 0 <= i < |Aliases(st.api)|
        ensures ListCompiles(Aliases(st.api)[i].params, false)
      {
        var j := AliasFrom(st.api, Aliases(st.api)[i]);
        ListExactly(st.api[j].params, st.api[j].variadic);
      }
    }
  }

  lemma ExportAt(lib: string, sha: Sha, st: State, i: nat)
    requires WellFormedTypes(st.types)
    ensures |Exports(lib, sha, st.thunks, st.types)| == |st.thunks| + |st.types|
    ensures i < |st.thunks| ==> ExportCompiles(Exports(lib, sha, st.thunks, st.types)[i])
    ensures i < |st.types| ==>
              (ExportCompiles(Exports(lib, sha, st.thunks, st.types)[|st.thunks| + i]) <==> CallableType(st.types[i]))
  {
    hide HostDigest, Message, UnpackName, CallbackTarget, Signature, CallableType, ForIndirectCallCompiles;
    if i < |st.thunks| {
      assert Exports(lib, sha, st.thunks, st.types)[i] == ThunkExport(lib, sha, st.thunks[i]);
    }
    if i < |st.types| {
      assert Exports(lib, sha, st.thunks, st.types)[|st.thunks| + i] == CallbackExport(lib, sha, st.types[i]);
      hide ExportCompiles;
      ExportExactly(lib, sha, st.types[i]);
    }
  }

  lemma ExportsExactly(lib: string, sha: Sha, st: State)
    requires WellFormedTypes(st.types)
    ensures var exports := Exports(lib, sha, st.thunks, st.types);
            (forall i | 0 <= i < |exports| :: ExportCompiles(exports[i]))
            <==> forall i | 0 <= i < |st.types| :: CallableType(st.types[i])
  {
    var exports, n := Exports(lib, sha, st.thunks, st.types), |st.thunks|;
    hide Exports, ExportCompiles, CallableType, WellFormedTypes;
    ExportAt(lib, sha, st, 0);
    forall i | 0 <= i < |exports|
      ensures ExportCompiles(exports[i]) <==> i < n || CallableType(st.types[i - n])
    {
      ExportAt(lib, sha, st, i);
      if i >= n { ExportAt(lib, sha, st, i - n); }
    }
    if forall i | 0 <= i < |exports| :: ExportCompiles(exports[i]) {
      forall i | 0 <= i < |st.types| ensures CallableType(st.types[i]) { assert ExportCompiles(exports[n + i]); }
    }
  }

  /** What the invariant says of the callbacks of a thunk. */
  lemma CallbacksRecorded(st: State, i: nat)
    requires Invariant(st) && i < |st.thunks|
    ensures CallbacksFit(st.thunks[i])
    ensures forall k | k in st.thunks[i].callbacks && !st.thunks[i].callbacks[k].isStub ::
              !st.thunks[i].callbacks[k].callee.variadic
    ensures forall k | DefaultCallback(st.thunks[i], k) :: st.thunks[i].callbacks[k].callee in st.types
  {
    var t := st.thunks[i];
    assert Corresponds(t, st.api[i], st.types);
    forall k | k in t.callbacks
      ensures k < |t.params| && IsFunctionPointer(t.params[k]) && t.callbacks[k].callee == Callee(t.params[k])
      ensures !t.callbacks[k].isStub ==> !t.callbacks[k].callee.variadic
      ensures DefaultCallback(t, k) ==> t.callbacks[k].callee in st.types
    {
      assert CallbackOk(t.callbacks[k], t.params[k], st.types, t.customHost && !t.variadic);
    }
  }

  /** One thunk, where the registered types are callable. */
  lemma ThunkExactly(lib: string, st: State, i: nat)
    requires Invariant(st) && WellFormedState(st) && i < |st.thunks|
    requires forall j | 0 <= j < |st.types| :: CallableType(st.types[j])
    ensures PackerCompiles(PackerOf(lib, st.thunks[i])) && UnpackerCompiles(UnpackerOf(lib, st.thunks[i]))
            <==> PrintableThunk(st.thunks[i]) && PassableCallbacks(st.thunks[i])
  {
    var t := st.thunks[i];
    CallbacksRecorded(st, i);
    hide Invariant, PackerCompiles, UnpackerCompiles, PackerOf, UnpackerOf, PrintableThunk, UnpackCompiles,
      CallGuestPtrCompiles, CallbacksFit;
    forall k | DefaultCallback(t, k)
      ensures CallableType(t.callbacks[k].callee) && CallGuestPtrCompiles(t.callbacks[k].callee)
      ensures UnpackCompiles(t.callbacks[k].callee) <==> |t.callbacks[k].callee.params| != 23
    {
      CallableExactly(t.callbacks[k].callee);
      UnpackExactly(t.callbacks[k].callee);
    }
    PackerExactly(lib, t);
    if PrintableThunk(t) { UnpackerExactly(lib, t); }
  }

  /** The emitted files compile if and only if the library is compilable. */
  lemma CompilesExactly(lib: string, sha: Sha, st: State)
    requires Invariant(st) && WellFormedState(st)
    ensures Compiles(FilesOf(lib, sha, st)) <==> CompilableLibrary(st)
  {
    hide PackerCompiles, UnpackerCompiles, StubCompiles, ListCompiles, ExportCompiles, PackerOf, UnpackerOf,
      PrintableThunk, PrintableStubs, PassableCallbacks, PrintableList, CallableType, Invariant, Aliases, Stubs,
          Exports,
      PointerOf, WellFormedTypes;
    AllStubsExactly(st);
    ListsExactly(lib, st);
    ExportsExactly(lib, sha, st);
    var f := FilesOf(lib, sha, st);
    if forall j | 0 <= j < |st.types| :: CallableType(st.types[j]) {
      forall i | 0 <= i < |st.thunks|
        ensures PackerCompiles(f.packers[i]) && UnpackerCompiles(f.unpackers[i])
                <==> PrintableThunk(st.thunks[i]) && PassableCallbacks(st.thunks[i])
      {
        ThunkExactly(lib, st, i);
      }
    }
  }
}
