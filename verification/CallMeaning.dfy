/**
 What a thunked call means, said without structs, digests or names: every argument is passed on, callbacks
 by their strategy, and the target is called once with the result.
 */
module CallMeaning {
  import opened Options
  import opened CTypes
  import opened Bytes
  import opened Generator
  import opened Emission
  import opened ThunkRuntime

  predicate NeedsTrampoline(t: Thunk, i: nat) {
    i in t.callbacks && !t.callbacks[i].isStub && !t.callbacks[i].isGuest
  }

  /** Guest side: a guest function that host code is to call is replaced by its trampoline. */
  function PassFrom(t: Thunk, args: seq<Value>, i: nat, w: World): (seq<Value>, World)
    requires i <= |args|
    decreases |args| - i
  {
    if i == |args| then ([], w)
    else
      var (v, w1) := PassOne(t, args[i], i, w);
      var (vs, w2) := PassFrom(t, args, i + 1, w1);
      ([v] + vs, w2)
  }

  function PassOne(t: Thunk, v: Value, i: nat, w: World): (Value, World) {
    if NeedsTrampoline(t, i) then
      var (a, w1) := Allocate(w, t.callbacks[i].callee, FromLE(v));
      (LE(a, 8), w1)
    else (v, w)
  }

  /** Host side: trampolines become usable, other callbacks become a stub or an opaque pointer. */
  function ReceiveFrom(t: Thunk, vs: seq<Value>, i: nat, w: World): Outcome<(seq<HostValue>, World)>
    requires i <= |vs|
    decreases |vs| - i
  {
    if i == |vs| then Done(([], w))
    else match ReceiveOne(t, vs[i], i, w)
      case Crashed => Crashed
      case Broken => Broken
      case Done((x, w1)) =>
        match ReceiveFrom(t, vs, i + 1, w1)
        case Crashed => Crashed
        case Broken => Broken
        case Done((xs, w2)) => Done(([x] + xs, w2))
  }

  function ReceiveOne(t: Thunk, v: Value, i: nat, w: World): Outcome<(HostValue, World)> {
    if i !in t.callbacks then Done((Plain(v), w))
    else if t.callbacks[i].isStub then Done((StubPointer(StubName(t.name, i)), w))
    else if t.callbacks[i].isGuest then Done((WrappedGuestPointer(v), w))
    else match Finalize(w, FromLE(v), t.callbacks[i].callee)
      case None => Crashed
      case Some(w1) => Done((Plain(v), w1))
  }

  /** The host function or implementation a thunk stands for. */
  function TargetOf(lib: string, t: Thunk, a: Api): Target {
    if t.customHost then CustomImplementation(ImplName(lib, t.name)) else HostSymbol(a.loader, a.name)
  }

  function MeaningOf(t: Thunk, target: Target, host: Host, args: seq<Value>, w: World)
    : Outcome<(Option<Value>, World)>
  {
    var (vs, w1) := PassFrom(t, args, 0, w);
    match ReceiveFrom(t, vs, 0, w1)
    case Crashed => Crashed
    case Broken => Broken
    case Done((xs, w2)) =>
      var call := HostCall(target, xs);
      var (rv, w3) := host(call, w2.(calls := w2.calls + [call]));
      Done((if IsVoid(t.ret) then None else Some(rv), w3))
  }

  lemma {:induction false} PassLength(t: Thunk, args: seq<Value>, i: nat, w: World)
    requires i <= |args|
    ensures |PassFrom(t, args, i, w).0| == |args| - i
    decreases |args| - i
  {
    if i < |args| { PassLength(t, args, i + 1, PassOne(t, args[i], i, w).1); }
  }
}
