/**
 The emitted files preserve meaning: a call of a generated guest function is a call of the host function
 it stands for.
 */
module MeaningPreservation {
  import opened Options
  import opened CTypes
  import opened DigestText
  import opened Generator
  import opened GeneratorInvariant
  import opened Emission
  import opened ThunkRuntime
  import opened CallMeaning
  import opened StructLayout
  import opened ThunkStructs
  import opened EmittedNames
  import opened Compilation
  import opened PackedArguments
  import opened Declarators

  /** A machine on which the emitted files of `st` are loaded, whatever was loaded before. */
  ghost predicate Loaded(m: Machine, lib: string, sha: Sha, st: State) {
    && ValidAbi(m.abi)
    && exists table :: m.thunks == LoadExports(Exports(lib, sha, st.thunks, st.types), table)
  }

  /** The target returns values of the declared type. */
  ghost predicate ReturnsFit(m: Machine, t: Thunk, target: Target) {
    !IsVoid(t.ret) ==> forall call: HostCall, w: World | call.target == target ::
        |m.host(call, w).0| == m.abi.size(t.ret)
  }

  ghost predicate Accepted(lib: string, sha: Sha, st: State) {
    Invariant(st) && UniqueNames(st) && NamedByIdentifiers(st) && Digests(sha, lib, st)
  }

  lemma CallbacksOfThunkFit(st: State, k: nat)
    requires Invariant(st) && k < |st.thunks|
    ensures CallbacksFit(st.thunks[k]) && |st.thunks[k].callbacks| <= 1
  {
    var t, a := st.thunks[k], st.api[k];
    assert Corresponds(t, a, st.types);
    forall i | i in t.callbacks
      ensures i < |t.params| && IsFunctionPointer(t.params[i]) && t.callbacks[i].callee == Callee(t.params[i])
    {
      assert CallbackOk(t.callbacks[i], t.params[i], st.types, t.customHost && !t.variadic);
    }
  }

  lemma StubsEmitted(st: State, k: nat)
    requires Invariant(st) && k < |st.thunks|
    ensures forall i | i in st.thunks[k].callbacks && st.thunks[k].callbacks[i].isStub ::
              StubName(st.thunks[k].name, i) in StubNames(Stubs(st.thunks))
  {
    var t := st.thunks[k];
    assert Corresponds(t, st.api[k], st.types);
    forall i | i in t.callbacks && t.callbacks[i].isStub
      ensures StubName(t.name, i) in StubNames(Stubs(st.thunks))
    {
      assert CallbackOk(t.callbacks[i], t.params[i], st.types, t.customHost && !t.variadic);
      assert StubOf(t.name, i, t.callbacks[i].spelled) in Stubs(st.thunks);
    }
  }

  /** The unpacker, run on a struct that holds `vs`. */
  lemma UnpackerReceives(lib: string, sha: Sha, st: State, k: nat, m: Machine, mem: Memory, vs: seq<Value>, w: World)
    requires Accepted(lib, sha, st) && k < |st.thunks| && ValidAbi(m.abi) && PrintableThunk(st.thunks[k])
    requires |vs| == |st.thunks[k].params| && |mem| == StructSize(m.abi, Fields(st.thunks[k]))
    requires forall j | 0 <= j < |vs| :: FieldValue(m.abi, Fields(st.thunks[k]), mem, j) == vs[j]
    requires ReturnsFit(m, st.thunks[k], TargetOf(lib, st.thunks[k], st.api[k]))
    ensures var t, f := st.thunks[k], FilesOf(lib, sha, st);
            var r := RunUnpacker(f, m, UnpackerOf(lib, t), mem, w);
            match ReceiveFrom(t, vs, 0, w)
            case Crashed => r == Crashed
            case Broken => r == Broken
            case Done((xs, w2)) =>
              var call := HostCall(TargetOf(lib, t, st.api[k]), xs);
              var (rv, w3) := m.host(call, w2.(calls := w2.calls + [call]));
              && r.Done? && r.value.1 == w3 && |r.value.0| == |mem|
              && (!IsVoid(t.ret) ==> ReadNamed(m.abi, Fields(t), r.value.0, "rv") == Some(rv))
  {
    hide Fields, StructMembers, EvalHostArgs, ReceiveFrom, CalleeName, Resolve, WriteNamed, ReadNamed;
    var t, f := st.thunks[k], FilesOf(lib, sha, st);
    StructParses(t);
    CalleeResolves(lib, sha, st, k);
    CallbacksOfThunkFit(st, k);
    StubsEmitted(st, k);
    ArgsReceived(m.abi, t, mem, StubNames(f.stubs), vs, 0, w);
    assert UnpackerOf("", t).args == UnpackerOf(lib, t).args;
    if ReceiveFrom(t, vs, 0, w).Done? && !IsVoid(t.ret) {
      var (xs, w2) := ReceiveFrom(t, vs, 0, w).value;
      var call := HostCall(TargetOf(lib, t, st.api[k]), xs);
      var rv := m.host(call, w2.(calls := w2.calls + [call])).0;
      ResultStored(m.abi, t, mem, rv);
    }
  }

  lemma ResultStored(abi: Abi, t: Thunk, mem: Memory, rv: Value)
    requires ValidAbi(abi) && !IsVoid(t.ret) && |mem| == StructSize(abi, Fields(t)) && |rv| == abi.size(t.ret)
    ensures var r := WriteNamed(abi, Fields(t), mem, "rv", rv);
            r.Done? && |r.value| == |mem| && ReadNamed(abi, Fields(t), r.value, "rv") == Some(rv)
  {
    hide WriteNamed, ReadNamed;
    FieldNamesDistinct(t);
    var ms := Fields(t);
    assert ms[|t.params|] == Member("rv", t.ret);
    WriteField(abi, ms, mem, |t.params|, rv);
    ThunkStructs.ReadField(abi, ms, WriteNamed(abi, ms, mem, "rv", rv).value, |t.params|);
  }

  /** The thunk instruction of a packer reaches the unpacker of the same thunk. */
  lemma DispatchReaches(lib: string, sha: Sha, st: State, k: nat, m: Machine, mem: Memory, w: World)
    requires Accepted(lib, sha, st) && NamedProperly(st) && k < |st.thunks| && Loaded(m, lib, sha, st)
    ensures Dispatch(FilesOf(lib, sha, st), m, ThunkSymbol(lib, st.thunks[k].name), mem, w)
            == RunUnpacker(FilesOf(lib, sha, st), m, UnpackerOf(lib, st.thunks[k]), mem, w)
  {
    hide Exports, RunUnpacker, ParseByteList, GuestDigest, LoadExports, FindThunk, FindUnpacker, ThunkSymbol,
      UnpackName, Message, UnpackerOf, GuestThunks, Unpackers, Invariant, UniqueNames, NamedProperly;
    var table :| m.thunks == LoadExports(Exports(lib, sha, st.thunks, st.types), table);
    GuestThunkAt(lib, sha, st, k);
    UnpackerAt(lib, st, k);
    ThunkDigestLoaded(lib, sha, st, k, table);
    var msg := Message(lib, st.thunks[k].name);
    assert msg in Messages(lib, st);
    GuestDigestParses(sha(msg));
  }

  /** In a library that compiles a call runs the packer of its thunk. */
  lemma PackerRuns(lib: string, sha: Sha, st: State, k: nat, m: Machine, args: seq<Value>, stack: Memory, w: World)
    requires Accepted(lib, sha, st) && k < |st.thunks| && ValidAbi(m.abi) && WellFormedState(st)
             && CompilableLibrary(st)
    ensures CallPacker(FilesOf(lib, sha, st), m, PackName(st.thunks[k].name), args, stack, w)
            == RunPacker(FilesOf(lib, sha, st), m, PackerOf(lib, st.thunks[k]), args, stack, w)
  {
    CompilesExactly(lib, sha, st);
    hide Compiles, RunPacker, PackerOf, GuestThunks, Exports, FindPacker, PackName, Invariant, UniqueNames,
      CompilableLibrary;
    PackerAt(lib, st, k);
  }

  /** What a packer does with what its thunk instruction left behind. */
  function AfterThunk(abi: Abi, ms: seq<Member>, returnsRv: bool, r: Outcome<(Memory, World)>)
    : Outcome<(Option<Value>, World)>
    requires ValidAbi(abi)
  {
    match r
    case Crashed => Crashed
    case Broken => Broken
    case Done((mem, w)) =>
      if !returnsRv then Done((None, w))
      else match ReadNamed(abi, ms, mem, "rv")
        case None => Broken
        case Some(v) => Done((Some(v), w))
  }

  lemma PackerSteps(f: Files, m: Machine, p: Packer, args: seq<Value>, stack: Memory, w: World, params: seq<Member>,
                    ms: seq<Member>, mem: Memory, w1: World)
    requires ValidAbi(m.abi) && MembersOf(p.params) == Some(params) && MembersOf(p.members) == Some(ms)
    requires |args| == |params| && |stack| == StructSize(m.abi, ms)
    requires RunWrites(m.abi, ms, params, args, p.writes, 0, stack, w) == Done((mem, w1))
    ensures RunPacker(f, m, p, args, stack, w) == AfterThunk(m.abi, ms, p.returnsRv, Dispatch(f, m, p.thunk, mem, w1))
  {
    hide RunWrites, Dispatch, ReadNamed, StructSize, MembersOf;
  }

  lemma PrintableCall(lib: string, sha: Sha, st: State, k: nat, m: Machine, args: seq<Value>, stack: Memory, w: World)
    requires Accepted(lib, sha, st) && NamedProperly(st) && k < |st.thunks| && Loaded(m, lib, sha, st)
    requires PrintableThunk(st.thunks[k])
    requires FittingArgs(m.abi, st.thunks[k], args) && |stack| == StructSize(m.abi, Fields(st.thunks[k]))
    requires ReturnsFit(m, st.thunks[k], TargetOf(lib, st.thunks[k], st.api[k]))
    ensures RunPacker(FilesOf(lib, sha, st), m, PackerOf(lib, st.thunks[k]), args, stack, w)
            == MeaningOf(st.thunks[k], TargetOf(lib, st.thunks[k], st.api[k]), m.host, args, w)
  {
    var t, f := st.thunks[k], FilesOf(lib, sha, st);
    hide Dispatch, RunUnpacker, RunWrites, Fields, StructMembers, ParamDecls, FieldValue, PackName, ThunkSymbol,
      TargetOf, Invariant, UniqueNames, NamedProperly, Digests, PassFrom, ReceiveFrom, EvalGuest, ReadNamed,
      WriteNamed, Params, CallbacksFit, IsConst, FilesOf, RunPacker, MembersOf;
    StructParses(t);
    ParamsParse(t.params);
    CallbacksOfThunkFit(st, k);
    WritesPass(m.abi, t, args, 0, stack, w);
    assert PackerOf(lib, t).writes == Writes(t);
    var (mem, w1) := RunWrites(m.abi, Fields(t), Params(t.params), args, Writes(t), 0, stack, w).value;
    var vs := PassFrom(t, args, 0, w).0;
    forall j | 0 <= j < |vs|
      ensures FieldValue(m.abi, Fields(t), mem, j) == vs[j]
    {
      assert FieldValue(m.abi, Fields(t), mem, 0 + j) == vs[j];
    }
    assert |Params(t.params)| == |t.params| by { ParamsLength(t.params); }
    PackerSteps(f, m, PackerOf(lib, t), args, stack, w, Params(t.params), Fields(t), mem, w1);
    DispatchReaches(lib, sha, st, k, m, mem, w1);
    UnpackerReceives(lib, sha, st, k, m, mem, vs, w1);
  }

  lemma ParamsLength(params: seq<CType>)
    ensures |Params(params)| == |params|
  {
  }

  /** A library with a declaration that cannot be printed is emitted as code that does not compile. */
  lemma CallBroken(lib: string, sha: Sha, st: State, m: Machine, name: string, args: seq<Value>, stack: Memory,
      w: World)
    requires Invariant(st) && WellFormedState(st) && ValidAbi(m.abi) && !CompilableLibrary(st)
    ensures CallPacker(FilesOf(lib, sha, st), m, name, args, stack, w) == Broken
  {
    CompilesExactly(lib, sha, st);
  }

  /**
   Meaning preservation: for every recorded thunk, every argument list that fits and whatever memory the struct
   is placed in, the emitted code does exactly what the call means, if and only if it compiles.
   */
  lemma CallPreserved(lib: string, sha: Sha, st: State, k: nat, m: Machine, args: seq<Value>, stack: Memory, w: World)
    requires Accepted(lib, sha, st) && k < |st.thunks| && Loaded(m, lib, sha, st) && WellFormedState(st)
    requires FittingArgs(m.abi, st.thunks[k], args) && |stack| == StructSize(m.abi, Fields(st.thunks[k]))
    requires ReturnsFit(m, st.thunks[k], TargetOf(lib, st.thunks[k], st.api[k]))
    ensures var meaning := MeaningOf(st.thunks[k], TargetOf(lib, st.thunks[k], st.api[k]), m.host, args, w);
            && !meaning.Broken?
            && CallPacker(FilesOf(lib, sha, st), m, PackName(st.thunks[k].name), args, stack, w)
               == if CompilableLibrary(st) then meaning else Broken
  {
    hide CompilableLibrary, WellFormedState, Compiles, Invariant, UniqueNames, NamedProperly, NamedByIdentifiers,
        Digests, FindPacker,
      RunPacker, FilesOf;
    ReceivedNotBroken(st.thunks[k], PassFrom(st.thunks[k], args, 0, w).0, 0, PassFrom(st.thunks[k], args, 0, w).1);
    if CompilableLibrary(st) {
      CompilableOne(st, k);
      PackerRuns(lib, sha, st, k, m, args, stack, w);
      PrintableCall(lib, sha, st, k, m, args, stack, w);
    } else {
      CallBroken(lib, sha, st, m, PackName(st.thunks[k].name), args, stack, w);
    }
  }

  lemma CompilableOne(st: State, k: nat)
    requires CompilableLibrary(st) && k < |st.thunks|
    ensures PrintableThunk(st.thunks[k])
    ensures NamedByIdentifiers(st) ==> NamedProperly(st)
  {
    assert forall i | 0 <= i < |st.types| :: CallableType(st.types[i]);
  }

  lemma {:induction false} ReceivedNotBroken(t: Thunk, vs: seq<Value>, i: nat, w: World)
    requires i <= |vs|
    ensures !ReceiveFrom(t, vs, i, w).Broken?
    decreases |vs| - i
  {
    if i < |vs| {
      var r := ReceiveOne(t, vs[i], i, w);
      if r.Done? { ReceivedNotBroken(t, vs, i + 1, r.value.1); }
    }
  }

  // ----- a result that cannot be assigned -----

  const CONST_INT := Named(true, Builtin("int"))
  const CONST_RESULT := ConfigSpecialization(None, false, Function("f", CONST_INT, [], false), [], [])

  lemma ConstResultAccepted(st: State)
    requires Invariant(st) && !st.failed && NamespaceRecorded(st, CONST_RESULT)
    ensures var st' := Step(st, CONST_RESULT);
            && !st'.failed && Invariant(st')
            && st'.thunks == st.thunks + [Thunk("f", CONST_INT, [], false, false, map[])]
            && |st'.api| == |st.api| + 1 && st.api <= st'.api
            && st'.api[|st.api|].params == [] && st'.api[|st.api|].ret == CONST_INT
            && forall t | t in st'.types :: t in st.types || t == Fn(CONST_INT, [], false)
  {
    assert GetAnnotations([], []) == Ok(NO_ANNOTATIONS);
    assert ScanParams(Scan(map[], st.types, false), NO_ANNOTATIONS, 0, []) == Scan(map[], st.types, false);
    assert !IsFunctionPointer(CONST_INT);
    assert Canonical(Fn(CONST_INT, [], false)) == Fn(CONST_INT, [], false);
    hide Invariant, GetAnnotations, ScanParams, IsFunctionPointer, Canonical;
    StepKeeps(st, CONST_RESULT);
  }

  lemma ConstResultNotPrintable(st: State, st': State)
    requires WellFormedState(st) && st'.thunks == st.thunks + [Thunk("f", CONST_INT, [], false, false, map[])]
    requires |st'.api| == |st.api| + 1 && st.api <= st'.api
    requires st'.api[|st.api|].params == [] && st'.api[|st.api|].ret == CONST_INT
    requires forall t | t in st'.types :: t in st.types || t == Fn(CONST_INT, [], false)
    ensures WellFormedState(st') && !CompilableLibrary(st')
  {
    assert IsConst(CONST_INT) && !IsVoid(CONST_INT) && WellFormed(CONST_INT);
    var f := Fn(CONST_INT, [], false);
    assert WellFormed(f) && ProperType(f) && ProperSignature(CONST_INT, []);
    forall i | 0 <= i < |st'.types|
      ensures WellFormed(st'.types[i]) && ProperType(st'.types[i])
    {
      assert st'.types[i] in st'.types;
      if st'.types[i] != f { var j :| 0 <= j < |st.types| && st.types[j] == st'.types[i]; }
    }
    assert !PrintableThunk(st'.thunks[|st.thunks|]);
  }

  /** The visitor accepts `const int f()`, and no call into a library with it works: its code does not compile. */
  lemma ConstResultBroken(st: State, lib: string, sha: Sha, m: Machine, args: seq<Value>, stack: Memory, w: World)
    requires Invariant(st) && WellFormedState(st) && ValidAbi(m.abi) && !st.failed
    requires NamespaceRecorded(st, CONST_RESULT)
    ensures var st' := Step(st, CONST_RESULT);
            !st'.failed && CallPacker(FilesOf(lib, sha, st'), m, PackName("f"), args, stack, w) == Broken
  {
    hide Step, Invariant, WellFormedState, CompilableLibrary, FilesOf, Compiles, FindPacker, RunPacker, PackName;
    ConstResultAccepted(st);
    ConstResultNotPrintable(st, Step(st, CONST_RESULT));
    CallBroken(lib, sha, Step(st, CONST_RESULT), m, PackName("f"), args, stack, w);
  }
}
