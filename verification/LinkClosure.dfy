/** Every name one emitted file uses is defined by another, and the public entry points call what they stand for. */
module LinkClosure {
  import opened Options
  import opened CTypes
  import opened Bytes
  import opened StructLayout
  import opened Generator
  import opened GeneratorInvariant
  import opened Emission
  import opened ThunkRuntime
  import opened CallMeaning
  import opened ThunkStructs
  import opened EmittedNames
  import opened Compilation
  import opened Declarators
  import opened MeaningPreservation
  import opened CallbackProtocol

  lemma {:induction false} AliasFound(api: seq<Api>, i: nat)
    requires i < |api| && !api[i].customGuest
    requires forall j, k | 0 <= j < k < |api| :: api[j].name != api[k].name
    ensures FindAlias(Aliases(api), api[i].name) == Some(AliasOf(api[i]))
  {
    if i > 0 {
      AliasFound(api[1..], i - 1);
      assert Aliases(api) == (if api[0].customGuest then [] else [AliasOf(api[0])]) + Aliases(api[1..]);
      if api[0].customGuest {
        assert Aliases(api) == Aliases(api[1..]);
      } else {
        assert Aliases(api)[1..] == Aliases(api[1..]);
        assert AliasOf(api[0]).name != api[i].name;
      }
    }
  }

  /** A public alias names an emitted packer with the same parameters, also when the run ended in an error. */
  lemma AliasesResolve(lib: string, st: State, alias: PublicAlias)
    requires Invariant(st) && alias in Aliases(st.api)
    ensures exists k | 0 <= k < |st.thunks| ::
              PackerOf(lib, st.thunks[k]).name == alias.target && PackerOf(lib, st.thunks[k]).params == alias.params
  {
    hide PackName, ThunkSymbol, StructMembers, ParamDecls, Aliases, Stubs, CalleeName, UnpackName;
    var i := AliasFrom(st.api, alias);
    assert i < |st.thunks|;
    assert Corresponds(st.thunks[i], st.api[i], st.types);
    assert st.thunks[i].name == st.api[i].name + "" == st.api[i].name;
    assert PackerOf(lib, st.thunks[i]).name == alias.target;
  }

  /** Thunk symbols, exports and stubs that are used are emitted. */
  lemma ThunksResolve(lib: string, sha: Sha, st: State, k: nat)
    requires Invariant(st) && k < |st.thunks|
    ensures PackerOf(lib, st.thunks[k]).thunk == GuestThunks(lib, sha, st.thunks)[k].symbol
    ensures Exports(lib, sha, st.thunks, st.types)[k].target == UnpackerOf(lib, st.thunks[k]).name
    ensures forall i | 0 <= i < |st.thunks[k].params| ::
              var arg := UnpackerOf(lib, st.thunks[k]).args[i];
              arg.StubFunction? ==> arg.name in StubNames(Stubs(st.thunks))
  {
    hide ThunkSymbol, UnpackName, CalleeName, StructMembers, ParamDecls, Message;
    StubsEmitted(st, k);
  }

  /** The loader pointer an unpacker calls is declared, and assigned from the symbol of its thunk. */
  lemma PointersResolve(lib: string, st: State, k: nat)
    requires Invariant(st) && k < |st.thunks| && !st.thunks[k].customHost
    ensures UnpackerOf(lib, st.thunks[k]).callee == Pointers(lib, st.api)[k].name == Assignments(lib, st.api)[k].pointer
    ensures Assignments(lib, st.api)[k].symbol == st.thunks[k].name
  {
    hide LoaderPointer, UnpackName, StructMembers, ParamDecls;
    assert Corresponds(st.thunks[k], st.api[k], st.types);
    assert st.thunks[k].name == st.api[k].name + "" == st.api[k].name;
  }

  /**
   The premises of a call of thunk `k`: the files are loaded, the arguments fit and there is room for a
   trampoline.
   */
  ghost predicate Callable(lib: string, sha: Sha, st: State, k: nat, m: Machine, args: seq<Value>, stack: Memory,
      w: World) {
    && UniqueNames(st) && NamedByIdentifiers(st) && Digests(sha, lib, st) && Loaded(m, lib, sha, st)
    && k < |st.thunks| <= |st.api|
    && WellFormedState(st) && FittingArgs(m.abi, st.thunks[k], args)
    && |stack| == StructSize(m.abi, Fields(st.thunks[k]))
    && ReturnsFit(m, st.thunks[k], TargetOf(lib, st.thunks[k], st.api[k]))
    && ValidWorld(w) && w.next < ADDRESS_SPACE
  }

  lemma PublicAliasOf(st: State, k: nat)
    requires Invariant(st) && UniqueNames(st) && k < |st.thunks| && !st.api[k].customGuest
    ensures var r := FindAlias(Aliases(st.api), st.api[k].name);
            r.Some? && r.value.target == PackName(st.thunks[k].name)
  {
    AliasFound(st.api, k);
    assert Corresponds(st.thunks[k], st.api[k], st.types);
  }

  lemma AliasCalls(f: Files, m: Machine, name: string, args: seq<Value>, stack: Memory, w: World)
    requires ValidAbi(m.abi) && FindAlias(f.aliases, name).Some?
    ensures CallPublic(f, m, name, args, stack, w)
            == CallPacker(f, m, FindAlias(f.aliases, name).value.target, args, stack, w)
  {
  }

  // The premises can be met: `void f(void (*)())`, generated, loaded and ready to be called with a callback.

  const HANDLER := Fn(VOID, [], false)
  const WITH_HANDLER := Function("f", VOID, [Ptr(false, HANDLER)], false)
  const HANDLER_THUNK := Thunk("f", VOID, [Ptr(false, HANDLER)], false, false,
      map[0 := Callback(HANDLER, HANDLER, false, false)])
  const HANDLER_API := Api("f", VOID, [Ptr(false, HANDLER)], "dlsym", false, false, None)
  const HANDLER_VISITS := [ClassTemplate("fex_gen_config", None, true, [], []),
      ConfigSpecialization(None, false, WITH_HANDLER, [], [])]
  const GLOBAL_NAMESPACE := Namespace("", "", false, false)
  const HANDLER_STATE := State([HANDLER_THUNK], [HANDLER_API], [HANDLER], [GLOBAL_NAMESPACE], None, false)

  lemma HandlerType()
    ensures Canonical(HANDLER) == HANDLER && IsFunctionPointer(Ptr(false, HANDLER))
    ensures Callee(Ptr(false, HANDLER)) == HANDLER == SpelledCallee(Ptr(false, HANDLER))
  {
    assert Canonical(HANDLER).params == [];
    assert Canonical(VOID) == VOID;
    assert Canonical(Ptr(false, HANDLER)) == Ptr(false, Canonical(HANDLER));
  }

  lemma HandlerScan()
    ensures ScanParams(Scan(map[], [], false), NO_ANNOTATIONS, 0, [Ptr(false, HANDLER)])
            == Scan(map[0 := Callback(HANDLER, HANDLER, false, false)], [HANDLER], false)
  {
    HandlerType();
    var params, cb := [Ptr(false, HANDLER)], Callback(HANDLER, HANDLER, false, false);
    var s := ScanParam(Scan(map[], [], false), NO_ANNOTATIONS, 0, params[0]);
    assert s.callbacks == map[0 := cb];
    assert s.callbacks.Keys == {0} && |s.callbacks| == 1;
    assert s == Scan(map[0 := cb], [HANDLER], false);
    assert ScanParams(s, NO_ANNOTATIONS, 1, params) == s;
  }

  lemma HandlerRun()
    ensures Run(HANDLER_VISITS, [INITIAL, INITIAL.(namespaces := [GLOBAL_NAMESPACE]), HANDLER_STATE])
  {
    var s1 := INITIAL.(namespaces := [GLOBAL_NAMESPACE]);
    assert GetNamespaceAnnotations(true, [], []) == Ok(NO_NAMESPACE_ANNOTATIONS);
    assert Step(INITIAL, HANDLER_VISITS[0]) == s1;
    assert NamespaceIndex(s1.namespaces, "") == 0;
    assert GetAnnotations([], []) == Ok(NO_ANNOTATIONS);
    assert !IsFunctionPointer(VOID);
    HandlerScan();
    hide ScanParams;
    assert Step(s1, HANDLER_VISITS[1]) == HANDLER_STATE;
  }

  /** Any two messages have different digests. */
  function HandlerSha(lib: string): Sha {
    m => if m == Message(lib, "f") then seq(32, _ => 0) else seq(32, _ => 1)
  }

  lemma HandlerLibrary(lib: string)
    ensures UniqueNames(HANDLER_STATE) && NamedByIdentifiers(HANDLER_STATE)
            && Digests(HandlerSha(lib), lib, HANDLER_STATE)
  {
    hide Message, CallbackEntry;
    forall m | m in Messages(lib, HANDLER_STATE)
      ensures m == Message(lib, "f") || m == Message(lib, CallbackEntry(HANDLER))
    {
    }
    assert seq(32, _ => 0)[0] != seq(32, _ => 1)[0];
  }

  lemma HandlerPrintable()
    ensures WellFormedState(HANDLER_STATE) && CompilableLibrary(HANDLER_STATE)
  {
    assert WellFormed(VOID) && WellFormed(HANDLER) && WellFormed(Ptr(false, HANDLER));
    assert IsVoid(VOID);
    assert Unqualified(Ptr(false, HANDLER)) == Ptr(false, HANDLER);
  }

  const UNIFORM_ABI := Abi(_ => 8, _ => 1)
  const EMPTY_WORLD := World(map[], map[], 1, [])
  const HANDLER_ARGS: seq<Value> := [LE(5, 8)]

  function HandlerMachine(lib: string, host: Host): Machine {
    Machine(UNIFORM_ABI, LoadExports(Exports(lib, HandlerSha(lib), [HANDLER_THUNK], [HANDLER]), map[]), host)
  }

  lemma HandlerLoaded(lib: string, host: Host)
    ensures Loaded(HandlerMachine(lib, host), lib, HandlerSha(lib), HANDLER_STATE)
  {
    hide Exports, LoadExports, HandlerSha;
    assert ValidAbi(UNIFORM_ABI);
  }

  lemma HandlerArguments()
    ensures FittingArgs(UNIFORM_ABI, HANDLER_THUNK, HANDLER_ARGS) && FromLE(HANDLER_ARGS[0]) == 5
  {
    assert 5 < Pow256(8) by { assert Pow256(8) == 256 * Pow256(7); }
    FromLEOfLE(5, 8);
  }

  lemma RoomForTrampolines()
    ensures ValidWorld(EMPTY_WORLD) && EMPTY_WORLD.next < ADDRESS_SPACE
  {
    assert Pow256(8) == 256 * Pow256(7);
  }

  /** All of them together, also that the library compiles and that a trampoline is needed and not null. */
  lemma PremisesCanBeMet(lib: string, host: Host)
    returns (states: seq<State>, sha: Sha, m: Machine, args: seq<Value>, stack: Memory, w: World)
    ensures Run(HANDLER_VISITS, states) && m.host == host
    ensures Callable(lib, sha, states[2], 0, m, args, stack, w) && !states[2].api[0].customGuest
    ensures CompilableLibrary(states[2])
    ensures |args| == 1 && NeedsTrampoline(states[2].thunks[0], 0) && FromLE(args[0]) != 0
  {
    states := [INITIAL, INITIAL.(namespaces := [GLOBAL_NAMESPACE]), HANDLER_STATE];
    sha, m, args, w := HandlerSha(lib), HandlerMachine(lib, host), HANDLER_ARGS, EMPTY_WORLD;
    HandlerLoaded(lib, host);
    stack := seq(StructSize(m.abi, Fields(HANDLER_THUNK)), _ => 0);
    assert ReturnsFit(m, HANDLER_THUNK, TargetOf(lib, HANDLER_THUNK, HANDLER_API)) by { assert IsVoid(VOID); }
    hide Loaded, FittingArgs, ReturnsFit, ValidWorld, Fields, StructSize, Run, UniqueNames, NamedByIdentifiers, Digests,
      TargetOf, CompilableLibrary, WellFormedState, HandlerSha, FromLE, LE, Pow256, Exports, LoadExports;
    HandlerRun();
    HandlerLibrary(lib);
    HandlerPrintable();
    HandlerArguments();
    RoomForTrampolines();
  }

  /**
   The whole story for a public function, in every state of every run of the generator: the emitted code does
   not compile if and only if a declaration of the library is not printable; otherwise calling the public guest
   function calls its target once, ready, and returns its result, or crashes; and it crashes if and only if a
   callback that host code is to call is null.
   */
  lemma PublicCallIsHostCall(visits: seq<Visit>, states: seq<State>, n: nat, lib: string, sha: Sha, k: nat, m: Machine,
                             args: seq<Value>, stack: Memory, w: World)
    requires Run(visits, states) && n < |states|
    requires Callable(lib, sha, states[n], k, m, args, stack, w) && !states[n].api[k].customGuest
    ensures var t, a := states[n].thunks[k], states[n].api[k];
            var r := CallPublic(FilesOf(lib, sha, states[n]), m, a.name, args, stack, w);
            if !CompilableLibrary(states[n]) then r == Broken
            else if exists i | 0 <= i < |args| :: NeedsTrampoline(t, i) && FromLE(args[i]) == 0 then r == Crashed
            else CalledOnce(t, TargetOf(lib, t, a), m.host, args, w, r)
  {
    var st := states[n];
    RunKeeps(visits, states, n);
    PublicAliasOf(st, k);
    AliasCalls(FilesOf(lib, sha, st), m, st.api[k].name, args, stack, w);
    PackerCallIsHostCall(lib, sha, st, k, m, args, stack, w);
  }

  /** The same for every thunk, also those that are called by hand-written guest code only. */
  lemma PackerCallIsHostCall(lib: string, sha: Sha, st: State, k: nat, m: Machine, args: seq<Value>, stack: Memory,
      w: World)
    requires Invariant(st) && Callable(lib, sha, st, k, m, args, stack, w)
    ensures var t, a := st.thunks[k], st.api[k];
            var r := CallPacker(FilesOf(lib, sha, st), m, PackName(t.name), args, stack, w);
            if !CompilableLibrary(st) then r == Broken
            else if exists i | 0 <= i < |args| :: NeedsTrampoline(t, i) && FromLE(args[i]) == 0 then r == Crashed
            else CalledOnce(t, TargetOf(lib, t, a), m.host, args, w, r)
  {
    CallPreserved(lib, sha, st, k, m, args, stack, w);
    CallbacksOfThunkFit(st, k);
    CallExplained(st.thunks[k], TargetOf(lib, st.thunks[k], st.api[k]), m.host, args, w);
  }
}
