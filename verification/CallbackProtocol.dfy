/** What a thunked call does with its callback. */
module CallbackProtocol {
  import opened Options
  import opened CTypes
  import opened Texts
  import opened Bytes
  import opened Generator
  import opened GeneratorInvariant
  import opened Emission
  import opened ThunkRuntime
  import opened CallMeaning
  import opened ThunkStructs

  // ----- static: packer and unpacker agree on every parameter -----

  /** What the emitted code does with parameter `i` of thunk `t`. */
  predicate ParameterProtocol(t: Thunk, types: seq<CType>, i: nat)
    requires i < |t.params|
  {
    var guest, host := PackerWrite(t, i).value, HostArg(t, i);
    && (guest.AllocateTrampoline? <==> host.FinalizeTrampoline?)
    && (host.FinalizeTrampoline? ==>
          IsFunctionPointer(t.params[i]) && Callee(t.params[i]) in types && !Callee(t.params[i]).variadic)
    && (host.WrapGuestPointer? ==> t.customHost && !t.variadic)
    && (!host.ReadField? ==> IsFunctionPointer(t.params[i]))
    && (!host.StubFunction? ==> host.field == ArgName(i)) && guest.name == ArgName(i)
  }

  /** A guest function pointer is passed to host code as it is, without a trampoline, stub or wrapper. */
  predicate PassedRaw(t: Thunk, i: nat)
    requires i < |t.params|
  {
    IsFunctionPointer(t.params[i]) && HostArg(t, i).ReadField?
  }

  /**
   Packer and unpacker agree on every parameter. A raw guest pointer reaches host code if and only if it is the
   last parameter of a variadic function, and functions are what its variadic arguments are.
   */
  lemma ParametersFollowProtocol(st: State, k: nat, i: nat)
    requires Invariant(st) && k < |st.thunks| && i < |st.thunks[k].params|
    ensures ParameterProtocol(st.thunks[k], st.types, i)
    ensures var t := st.thunks[k];
            PassedRaw(t, i)
            <==> t.variadic && i == |t.params| - 1 && t.params[i].Ptr? && Canonical(t.params[i].pointee).Fn?
  {
    var t, a := st.thunks[k], st.api[k];
    assert Corresponds(t, a, st.types);
    assert i < |a.params| ==> t.params[i] == a.params[i];
    if i in t.callbacks {
      assert CallbackOk(t.callbacks[i], t.params[i], st.types, t.customHost && !t.variadic);
    } else if i < |a.params| {
      assert !IsFunctionPointer(t.params[i]);
    } else if i == |a.params| {
      assert t.params[i] == SIZE_T && !IsFunctionPointer(SIZE_T);
    } else {
      assert Canonical(t.params[i]) == Ptr(t.params[i].isConst, Canonical(t.params[i].pointee));
    }
  }

  const VA_FUNCTIONS := TypeAlias("uniform_va_type", Fn(VOID, [], false))
  const REGISTER_ALL := Function("register_all", VOID, [SIZE_T], true)
  const RAW_VISIT := ConfigSpecialization(None, false, REGISTER_ALL, [], [VA_FUNCTIONS])

  /** The visitor accepts such a function, and its guest pointers reach host code raw. */
  lemma VariadicFunctionsPassedRaw(st: State)
    requires Invariant(st) && !st.failed && NamespaceRecorded(st, RAW_VISIT)
    ensures var st' := Step(st, RAW_VISIT);
            !st'.failed && |st'.thunks| == |st.thunks| + 1 && |st'.thunks[|st.thunks|].params| == 3
                && PassedRaw(st'.thunks[|st.thunks|], 2)
  {
    var st' := Step(st, RAW_VISIT);
    var a := NO_ANNOTATIONS.(vaType := Some(VA_FUNCTIONS.underlying));
    assert AnnotateAll(NO_ANNOTATIONS, []) == Ok(NO_ANNOTATIONS);
    assert [VA_FUNCTIONS][1..] == [];
    assert AnnotateChildren(a, []) == Ok(a);
    assert GetAnnotations([], [VA_FUNCTIONS]) == Ok(a);
    assert !IsFunctionPointer(SIZE_T) && !IsFunctionPointer(VOID);
    var start := Scan(map[], st.types, false);
    assert ScanParams(start, a, 1, [SIZE_T]) == start;
    assert ScanParams(start, a, 0, [SIZE_T]) == start;
    StepKeeps(st, RAW_VISIT);
    var t := st'.thunks[|st.thunks|];
    assert t.params == [SIZE_T] + [SIZE_T, Ptr(false, VA_FUNCTIONS.underlying)];
    ParametersFollowProtocol(st', |st.thunks|, 2);
  }

  // ----- trampolines are shared -----

  /** What the runtime does to trampolines, in any order. */
  datatype TrampolineStep = Request(callee: CType, target: nat) | Completion(address: nat, callee: CType)

  function AfterStep(w: World, e: TrampolineStep): World {
    match e
    case Request(callee, g) => Allocate(w, callee, g).1
    case Completion(a, callee) => (match Finalize(w, a, callee) case None => w case Some(w') => w')
  }

  function AfterSteps(w: World, steps: seq<TrampolineStep>): World
    decreases |steps|
  {
    if steps == [] then w else AfterSteps(AfterStep(w, steps[0]), steps[1..])
  }

  lemma {:induction false} CacheStays(w: World, steps: seq<TrampolineStep>, key: (CType, nat))
    requires key in w.cache
    ensures key in AfterSteps(w, steps).cache && AfterSteps(w, steps).cache[key] == w.cache[key]
    decreases |steps|
  {
    if steps != [] { CacheStays(AfterStep(w, steps[0]), steps[1..], key); }
  }

  /**
   A guest function passed again for the same callback type gets the same trampoline, whatever happened in
   between.
   */
  lemma SameTrampoline(w: World, callee: CType, g: nat, steps: seq<TrampolineStep>)
    requires g != 0
    ensures var (a, w1) := Allocate(w, callee, g);
            var w2 := AfterSteps(w1, steps);
            Allocate(w2, callee, g) == (a, w2)
  {
    var (a, w1) := Allocate(w, callee, g);
    CacheStays(w1, steps, (callee, g));
  }

  /** Different guest functions, and different types, have different trampolines. */
  lemma OwnTrampolines(w: World, callee: CType, g: nat, callee': CType, g': nat)
    requires ValidWorld(w) && (callee, g) in w.cache && (callee', g') in w.cache && (callee, g) != (callee', g')
    ensures w.cache[(callee, g)] != w.cache[(callee', g')]
  {
    assert Cached(w, (callee, g)) && Cached(w, (callee', g'));
  }

  // ----- dynamic: the world the host function is called in -----

  const ADDRESS_SPACE := Pow256(8)

  /** What host code is given for argument `v`. */
  function Received(t: Thunk, i: nat, v: Value): HostValue {
    if i !in t.callbacks then Plain(v)
    else if t.callbacks[i].isStub then StubPointer(StubName(t.name, i))
    else if t.callbacks[i].isGuest then WrappedGuestPointer(v)
    else Plain(v)
  }

  function ReceivedArgs(t: Thunk, vs: seq<Value>, i: nat): seq<HostValue>
    requires i <= |vs|
  {
    seq(|vs| - i, j requires 0 <= j < |vs| - i => Received(t, i + j, vs[i + j]))
  }

  lemma {:induction false} PassNothing(t: Thunk, args: seq<Value>, i: nat, w: World)
    requires i <= |args| && forall j | i <= j < |args| :: !NeedsTrampoline(t, j)
    ensures PassFrom(t, args, i, w) == (args[i..], w)
    decreases |args| - i
  {
    if i < |args| {
      PassNothing(t, args, i + 1, w);
      assert args[i..] == [args[i]] + args[i + 1..];
    }
  }

  lemma {:induction false} ReceiveNothing(t: Thunk, vs: seq<Value>, i: nat, w: World)
    requires i <= |vs| && forall j | i <= j < |vs| :: !NeedsTrampoline(t, j)
    ensures ReceiveFrom(t, vs, i, w) == Done((ReceivedArgs(t, vs, i), w))
    decreases |vs| - i
  {
    if i < |vs| {
      ReceiveNothing(t, vs, i + 1, w);
      assert !NeedsTrampoline(t, i);
      assert ReceiveOne(t, vs[i], i, w) == Done((Received(t, i, vs[i]), w));
      assert ReceivedArgs(t, vs, i) == [Received(t, i, vs[i])] + ReceivedArgs(t, vs, i + 1);
    } else {
      assert ReceivedArgs(t, vs, i) == [];
    }
  }

  lemma {:induction false} PassOnly(t: Thunk, args: seq<Value>, i: nat, c: nat, w: World)
    requires i <= c < |args| && NeedsTrampoline(t, c) && forall j | i <= j < |args| && j != c :: !NeedsTrampoline(t, j)
    ensures var (a, w1) := Allocate(w, t.callbacks[c].callee, FromLE(args[c]));
            PassFrom(t, args, i, w) == (args[c := LE(a, 8)][i..], w1)
    decreases c - i
  {
    var (a, w1) := Allocate(w, t.callbacks[c].callee, FromLE(args[c]));
    var vs := args[c := LE(a, 8)];
    assert vs[i..] == [vs[i]] + vs[i + 1..];
    if i < c {
      PassOnly(t, args, i + 1, c, w);
    } else {
      PassNothing(t, args, i + 1, w1);
      assert vs[i + 1..] == args[i + 1..];
    }
  }

  lemma {:induction false} ReceiveOnly(t: Thunk, vs: seq<Value>, i: nat, c: nat, w: World)
    requires i <= c < |vs| && NeedsTrampoline(t, c) && forall j | i <= j < |vs| && j != c :: !NeedsTrampoline(t, j)
    ensures ReceiveFrom(t, vs, i, w)
            == match Finalize(w, FromLE(vs[c]), t.callbacks[c].callee)
               case None => Crashed
               case Some(w1) => Done((ReceivedArgs(t, vs, i), w1))
    decreases c - i
  {
    assert ReceivedArgs(t, vs, i) == [Received(t, i, vs[i])] + ReceivedArgs(t, vs, i + 1);
    if i < c {
      assert !NeedsTrampoline(t, i);
      assert ReceiveOne(t, vs[i], i, w) == Done((Received(t, i, vs[i]), w));
      ReceiveOnly(t, vs, i + 1, c, w);
    } else if Finalize(w, FromLE(vs[c]), t.callbacks[c].callee).Some? {
      ReceiveNothing(t, vs, i + 1, Finalize(w, FromLE(vs[c]), t.callbacks[c].callee).value);
    }
  }

  /** Nothing but trampolines changes, and those that were usable stay as they were. */
  predicate OnlyTrampolines(w: World, w': World) {
    && w'.calls == w.calls
    && (forall a | a in w.trampolines :: a in w'.trampolines && w'.trampolines[a].target == w.trampolines[a].target
          && w'.trampolines[a].unpacker == w.trampolines[a].unpacker
          && (w.trampolines[a].packer.Some? ==> w'.trampolines[a] == w.trampolines[a]))
  }

  lemma AllocateKeeps(w: World, callee: CType, g: nat)
    requires ValidWorld(w) && w.next < ADDRESS_SPACE && g != 0
    ensures var (a, w') := Allocate(w, callee, g);
            && ValidWorld(w') && OnlyTrampolines(w, w')
            && a in w'.trampolines && 0 < a < ADDRESS_SPACE
            && w'.trampolines[a].unpacker == callee && w'.trampolines[a].target == g
  {
    var (a, w') := Allocate(w, callee, g);
    if (callee, g) in w.cache {
      assert Cached(w, (callee, g));
    } else {
      forall key | key in w'.cache
        ensures Cached(w', key)
      {
        if key != (callee, g) { assert Cached(w, key); }
      }
    }
  }

  lemma FinalizeKeeps(w: World, a: nat, callee: CType)
    requires ValidWorld(w) && a in w.trampolines && w.trampolines[a].unpacker == callee
    ensures var r := Finalize(w, a, callee);
            && r.Some? && ValidWorld(r.value) && OnlyTrampolines(w, r.value)
            && r.value.trampolines[a] == Trampoline(callee, w.trampolines[a].target, Some(callee))
  {
    var w' := Finalize(w, a, callee).value;
    forall b | b in w'.trampolines
      ensures TrampolineOk(w'.trampolines[b])
    {
      assert TrampolineOk(w.trampolines[b]);
    }
    assert TrampolineOk(w.trampolines[a]);
    forall key | key in w'.cache
      ensures Cached(w', key)
    {
      assert Cached(w, key);
    }
  }

  /**
   The host function runs in a world in which, if the callback was to be made callable, its argument is the
   address of a trampoline that leads to the guest function and is ready for use; every other argument is
   what the guest passed, a stub or an opaque pointer.
   */
  ghost predicate ReadyCall(t: Thunk, args: seq<Value>, w: World, call: HostCall, w': World) {
    && ValidWorld(w') && OnlyTrampolines(w, w')
    && |call.args| == |args|
    && (forall i | 0 <= i < |args| && !NeedsTrampoline(t, i) :: call.args[i] == Received(t, i, args[i]))
    && (forall i | 0 <= i < |args| && NeedsTrampoline(t, i) ::
          ReadyTrampoline(t.callbacks[i].callee, args[i], call.args[i], w'))
  }

  /** Outcome `r` is that of one ready call of `target`, entered in the log before the host function runs. */
  ghost predicate CalledOnce(t: Thunk, target: Target, host: Host, args: seq<Value>, w: World,
      r: Outcome<(Option<Value>, World)>) {
    exists call: HostCall, w': World :: call.target == target && ReadyCall(t, args, w, call, w')
      && r == Returned(t, host(call, w'.(calls := w'.calls + [call])))
  }

  predicate ReadyTrampoline(callee: CType, arg: Value, x: HostValue, w: World) {
    && x.Plain?
    && FromLE(x.value) in w.trampolines
    && w.trampolines[FromLE(x.value)] == Trampoline(callee, FromLE(arg), Some(callee))
  }

  lemma OneTrampoline(t: Thunk, c: nat, i: nat)
    requires |t.callbacks| <= 1 && NeedsTrampoline(t, c) && i != c
    ensures i !in t.callbacks
  {
    var others := t.callbacks.Keys - {c};
    assert |others| == |t.callbacks.Keys| - 1;
    assert others == {};
    assert i !in others;
  }

  /**
   The call is made exactly once, ready, with the result of the host function, or else it crashes; it crashes
   if and only if a callback that was to be made callable is null.
   */
  lemma CallExplained(t: Thunk, target: Target, host: Host, args: seq<Value>, w: World)
    requires CallbacksFit(t) && |t.callbacks| <= 1 && |args| == |t.params|
    requires ValidWorld(w) && w.next < ADDRESS_SPACE
    ensures var r := MeaningOf(t, target, host, args, w);
            if exists i | 0 <= i < |args| :: NeedsTrampoline(t, i) && FromLE(args[i]) == 0 then r == Crashed
            else CalledOnce(t, target, host, args, w, r)
  {
    if c: nat :| c < |args| && NeedsTrampoline(t, c) {
      forall i | 0 <= i < |args| && i != c
        ensures i !in t.callbacks
      {
        OneTrampoline(t, c, i);
      }
      CallWithTrampoline(t, target, host, args, c, w);
    } else {
      CallWithoutTrampoline(t, target, host, args, w);
    }
  }

  function Returned(t: Thunk, r: (Value, World)): Outcome<(Option<Value>, World)> {
    Done((if IsVoid(t.ret) then None else Some(r.0), r.1))
  }

  lemma CallWithoutTrampoline(t: Thunk, target: Target, host: Host, args: seq<Value>, w: World)
    requires ValidWorld(w) && forall i | 0 <= i < |args| :: !NeedsTrampoline(t, i)
    ensures CalledOnce(t, target, host, args, w, MeaningOf(t, target, host, args, w))
  {
    PassNothing(t, args, 0, w);
    assert args[0..] == args;
    ReceiveNothing(t, args, 0, w);
    var call := HostCall(target, ReceivedArgs(t, args, 0));
    assert ReadyCall(t, args, w, call, w);
  }

  lemma CallWithTrampoline(t: Thunk, target: Target, host: Host, args: seq<Value>, c: nat, w: World)
    requires c < |args| && NeedsTrampoline(t, c) && forall j | 0 <= j < |args| && j != c :: j !in t.callbacks
    requires ValidWorld(w) && w.next < ADDRESS_SPACE
    ensures var r := MeaningOf(t, target, host, args, w);
            if FromLE(args[c]) == 0 then r == Crashed
            else CalledOnce(t, target, host, args, w, r)
  {
    hide FromLE, LE, PassFrom, ReceiveFrom, TrampolineOk, Cached;
    var callee, g := t.callbacks[c].callee, FromLE(args[c]);
    PassOnly(t, args, 0, c, w);
    var (a, w1) := Allocate(w, callee, g);
    var vs := args[c := LE(a, 8)];
    assert vs[0..] == vs;
    ReceiveOnly(t, vs, 0, c, w1);
    if g == 0 {
      FromLEOfLE(0, 8);
    } else {
      AllocateKeeps(w, callee, g);
      FromLEOfLE(a, 8);
      FinalizeKeeps(w1, a, callee);
      var w2 := Finalize(w1, a, callee).value;
      var call := HostCall(target, ReceivedArgs(t, vs, 0));
      assert ReadyCall(t, args, w, call, w2);
    }
  }
}
