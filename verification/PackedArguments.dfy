/**
 The templates that the emitted code instantiates: for which function types a struct of packed arguments is
 defined, and which of the functions that use it compile.
 */
module PackedArguments {
  import opened CTypes

  /** A specialization of `PackedArguments` is defined, and its member for the result is not of type void. */
  predicate HasPackedArguments(ret: CType, n: nat) {
    if Canonical(ret) == VOID then n <= 19 else !IsVoid(ret) && (n <= 14 || n == 23 || n == 24)
  }

  /** `Invoke`: it asserts the number of arguments, and assigns the result unless there is none. */
  predicate InvokeCompiles(ret: CType, n: nat) {
    && HasPackedArguments(ret, n)
    && (n <= 19 || n == 24)
    && (Canonical(ret) == VOID || !IsConst(ret))
  }

  /** Both sides specialize `CallbackUnpack` for function types without an ellipsis only. */
  predicate HasCallbackUnpack(t: CType) {
    t.Fn? && !t.variadic
  }

  /** Host: `CallbackUnpack<t>::CallGuestPtr`, what a trampoline runs. */
  predicate CallGuestPtrCompiles(t: CType) {
    HasCallbackUnpack(t) && HasPackedArguments(t.ret, |t.params|)
  }

  /** Host: `CallbackUnpack<t>::ForIndirectCall`; the pointer to call is one more argument. */
  predicate ForIndirectCallCompiles(t: CType) {
    && HasCallbackUnpack(t)
    && (|t.params| <= 18 || |t.params| == 23)
    && HasPackedArguments(t.ret, |t.params| + 1)
    && InvokeCompiles(t.ret, |t.params| + 1)
  }

  /** Guest: `CallbackUnpack<t>::Unpack`, what a trampoline leads to. */
  predicate UnpackCompiles(t: CType) {
    HasCallbackUnpack(t) && InvokeCompiles(t.ret, |t.params|)
  }

  /** Guest: `GetCallerForHostFunction`, the invoker of host pointers of type `t`. */
  predicate CallHostFunctionCompiles(t: CType) {
    t.Fn? && !t.variadic && HasPackedArguments(t.ret, |t.params| + 1)
  }

  /** Function types whose pointers host code can call on behalf of the guest, said directly. */
  predicate CallableType(t: CType) {
    && t.Fn? && !t.variadic && !IsConst(t.ret)
    && (|t.params| <= 13 || (if IsVoid(t.ret) then |t.params| <= 18 else |t.params| == 23))
  }

  lemma ConstVoid(t: CType)
    ensures Canonical(t) == VOID <==> IsVoid(t) && !IsConst(t)
  {
  }

  /** The assertions and specializations amount to that, and the other side's invoker asks for nothing more. */
  lemma CallableExactly(t: CType)
    ensures ForIndirectCallCompiles(t) <==> CallableType(t)
    ensures CallableType(t) ==> CallHostFunctionCompiles(t) && CallGuestPtrCompiles(t)
  {
    if t.Fn? { ConstVoid(t.ret); }
  }

  /**
   A callable type can be passed as a callback too, except with 23 parameters: the guest's side asserts against
   it.
   */
  lemma UnpackExactly(t: CType)
    requires CallableType(t)
    ensures UnpackCompiles(t) <==> |t.params| != 23
  {
    ConstVoid(t.ret);
  }

  /** An instance with 23 parameters: callable, but not as a callback. */
  lemma TwentyThreeParameters(ps: seq<CType>)
    requires |ps| == 23
    ensures var t := Fn(Named(false, Builtin("int")), ps, false); CallableType(t) && !UnpackCompiles(t)
  {
  }
}
