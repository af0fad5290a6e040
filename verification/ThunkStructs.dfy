/** The argument struct carries the passed values from the guest packer to the host unpacker. */
module ThunkStructs {
  import opened Options
  import opened CTypes
  import opened Declarators
  import opened DeclarationPrinting
  import opened Texts
  import opened StructLayout
  import opened Generator
  import opened Emission
  import opened ThunkRuntime
  import opened CallMeaning

  // ----- the struct declarations mean what they should -----

  predicate Printable(t: CType) {
    WellFormed(t) && Declarable(t)
  }

  /** The types of a thunk can be declared, and the member for the result assigned to. */
  predicate PrintableThunk(t: Thunk) {
    && (forall i | 0 <= i < |t.params| :: Printable(t.params[i]) && Printable(Unqualified(t.params[i])))
    && (!IsVoid(t.ret) ==> Printable(t.ret) && !IsConst(t.ret))
  }

  function ArgFields(params: seq<CType>): seq<Member> {
    seq(|params|, i requires 0 <= i < |params| => Member(ArgName(i), Unqualified(params[i])))
  }

  function Params(params: seq<CType>): seq<Member> {
    seq(|params|, i requires 0 <= i < |params| => Member(ArgName(i), params[i]))
  }

  function Fields(t: Thunk): seq<Member> {
    ArgFields(t.params)
    + (if !IsVoid(t.ret) then [Member("rv", t.ret)]
       else if t.params == [] then [Member("force_nonempty", Named(false, Builtin("char")))]
       else [])
  }

  lemma {:induction false} MembersByOne(decls: seq<seq<Token>>, ms: seq<Member>)
    requires |decls| == |ms| && forall i | 0 <= i < |ms| :: MemberOf(decls[i]) == Some(ms[i])
    ensures MembersOf(decls) == Some(ms)
  {
    if decls != [] {
      MembersByOne(decls[1..], ms[1..]);
      assert ms == [ms[0]] + ms[1..];
    }
  }

  lemma FormatMember(t: CType, name: string)
    requires Printable(t)
    ensures MemberOf(FormatDecl(t, name)) == Some(Member(name, t))
  {
    FormatDeclCorrect(t, name);
  }

  lemma {:induction false} MemberMissing(decls: seq<seq<Token>>, i: nat)
    requires i < |decls| && MemberOf(decls[i]) == None
    ensures MembersOf(decls) == None
  {
    if i > 0 { MemberMissing(decls[1..], i - 1); }
  }

  lemma ForceNonemptyParses()
    ensures MemberOf(FORCE_NONEMPTY) == Some(Member("force_nonempty", Named(false, Builtin("char"))))
  {
    var t := Named(false, Builtin("char"));
    AppendedOnChain(t, "force_nonempty");
    assert Signature(t) == [TSpec(Builtin("char"))];
    assert Signature(t) + [TSpace, TIdent("force_nonempty")] == FORCE_NONEMPTY;
  }

  /** Both printed structs declare the fields of the thunk, in order and with the right types. */
  lemma StructParses(t: Thunk)
    requires forall i | 0 <= i < |t.params| :: Printable(Unqualified(t.params[i]))
    requires !IsVoid(t.ret) ==> Printable(t.ret)
    ensures MembersOf(StructMembers(t)) == Some(Fields(t))
  {
    var decls, ms := StructMembers(t), Fields(t);
    forall i | 0 <= i < |ms|
      ensures MemberOf(decls[i]) == Some(ms[i])
    {
      if i < |t.params| {
        FormatMember(Unqualified(t.params[i]), ArgName(i));
      } else if !IsVoid(t.ret) {
        FormatMember(t.ret, "rv");
      } else {
        ForceNonemptyParses();
      }
    }
    MembersByOne(decls, ms);
  }

  lemma ParamsParse(params: seq<CType>)
    requires forall i | 0 <= i < |params| :: Printable(params[i])
    ensures MembersOf(ParamDecls(params)) == Some(Params(params))
  {
    forall i | 0 <= i < |params|
      ensures MemberOf(ParamDecls(params)[i]) == Some(Params(params)[i])
    {
      FormatMember(params[i], ArgName(i));
    }
    MembersByOne(ParamDecls(params), Params(params));
  }

  lemma ArgNamesDiffer(i: nat, j: nat)
    requires i != j
    ensures ArgName(i) != ArgName(j)
  {
    if ArgName(i) == ArgName(j) { ArgNameInjective(i, j); }
  }

  lemma FieldNamesDistinct(t: Thunk)
    ensures DistinctNames(Fields(t)) && DistinctNames(Params(t.params))
  {
    forall i, j | 0 <= i < j < |t.params|
      ensures ArgName(i) != ArgName(j)
    {
      ArgNamesDiffer(i, j);
    }
    forall i, j | 0 <= i < j < |Fields(t)|
      ensures Fields(t)[i].name != Fields(t)[j].name
    {
      if j >= |t.params| {
        assert ArgName(i)[0] == 'a';
      }
    }
  }

  // ----- memory holds the passed values -----

  function FieldValue(abi: Abi, ms: seq<Member>, mem: Memory, k: nat): Value
    requires ValidAbi(abi) && k < |ms| && |mem| == StructSize(abi, ms)
  {
    FieldInBounds(abi, ms, k);
    Read(mem, Offset(abi, ms, k), abi.size(ms[k].ctype))
  }

  lemma WriteField(abi: Abi, ms: seq<Member>, mem: Memory, k: nat, v: Value)
    requires ValidAbi(abi) && DistinctNames(ms) && k < |ms| && |mem| == StructSize(abi, ms)
             && |v| == abi.size(ms[k].ctype)
    ensures var r := WriteNamed(abi, ms, mem, ms[k].name, v);
            && r.Done? && |r.value| == |mem|
            && FieldValue(abi, ms, r.value, k) == v
            && forall j | 0 <= j < |ms| && j != k :: FieldValue(abi, ms, r.value, j) == FieldValue(abi, ms, mem, j)
  {
    FindDistinct(ms, k);
    FieldInBounds(abi, ms, k);
    var off := Offset(abi, ms, k);
    var mem' := StructLayout.Write(mem, off, v);
    ReadBack(mem, off, v);
    forall j | 0 <= j < |ms| && j != k
      ensures FieldValue(abi, ms, mem', j) == FieldValue(abi, ms, mem, j)
    {
      FieldsDisjoint(abi, ms, j, k);
      FieldInBounds(abi, ms, j);
      ReadElsewhere(mem, off, v, Offset(abi, ms, j), abi.size(ms[j].ctype));
    }
  }

  lemma ReadField(abi: Abi, ms: seq<Member>, mem: Memory, k: nat)
    requires ValidAbi(abi) && DistinctNames(ms) && k < |ms| && |mem| == StructSize(abi, ms)
    ensures ReadNamed(abi, ms, mem, ms[k].name) == Some(FieldValue(abi, ms, mem, k))
    ensures Find(ms, ms[k].name) == k
  {
    FindDistinct(ms, k);
    FieldInBounds(abi, ms, k);
  }

  // ----- guest side -----

  ghost predicate FittingArgs(abi: Abi, t: Thunk, args: seq<Value>) {
    |args| == |t.params| && forall i | 0 <= i < |args| :: |args[i]| == abi.size(t.params[i])
  }

  /** A thunk whose callbacks are those of its function-pointer parameters. */
  ghost predicate CallbacksFit(t: Thunk) {
    forall k | k in t.callbacks :: k < |t.params| && IsFunctionPointer(t.params[k])
        && t.callbacks[k].callee == Callee(t.params[k])
  }

  lemma EvalGuestIsPassOne(t: Thunk, args: seq<Value>, i: nat, w: World)
    requires CallbacksFit(t) && i < |args| == |t.params|
    ensures EvalGuest(Params(t.params), args, PackerWrite(t, i).value, w) == Some(PassOne(t, args[i], i, w))
  {
    FieldNamesDistinct(t);
    FindDistinct(Params(t.params), i);
  }

  lemma PassOneSize(abi: Abi, t: Thunk, args: seq<Value>, i: nat, w: World)
    requires ValidAbi(abi) && CallbacksFit(t) && FittingArgs(abi, t, args) && i < |args|
    ensures |PassOne(t, args[i], i, w).0| == abi.size(t.params[i])
  {
  }

  /** From `mem` to `mem'` the fields before `i` are kept and those from `i` on hold `vs`. */
  predicate Passed(abi: Abi, ms: seq<Member>, mem: Memory, mem': Memory, i: nat, vs: seq<Value>)
    requires ValidAbi(abi) && i + |vs| <= |ms| && |mem| == StructSize(abi, ms)
  {
    && |mem'| == |mem|
    && (forall j | 0 <= j < i :: FieldValue(abi, ms, mem', j) == FieldValue(abi, ms, mem, j))
    && (forall j | 0 <= j < |vs| :: FieldValue(abi, ms, mem', i + j) == vs[j])
  }

  lemma PassedOneMore(abi: Abi, ms: seq<Member>, mem: Memory, mem1: Memory, mem2: Memory, i: nat, v: Value,
      vs: seq<Value>)
    requires ValidAbi(abi) && i + 1 + |vs| <= |ms| && |mem| == |mem1| == StructSize(abi, ms)
    requires forall j | 0 <= j < i :: FieldValue(abi, ms, mem1, j) == FieldValue(abi, ms, mem, j)
    requires FieldValue(abi, ms, mem1, i) == v
    requires Passed(abi, ms, mem1, mem2, i + 1, vs)
    ensures Passed(abi, ms, mem, mem2, i, [v] + vs)
  {
    forall j | 0 <= j < |vs| + 1
      ensures FieldValue(abi, ms, mem2, i + j) == ([v] + vs)[j]
    {
      if j > 0 { assert FieldValue(abi, ms, mem2, i + 1 + (j - 1)) == vs[j - 1]; }
    }
  }

  function Writes(t: Thunk): seq<FieldWrite> {
    seq(|t.params|, i requires 0 <= i < |t.params| => PackerWrite(t, i))
  }

  lemma {:induction false} WritesPass(abi: Abi, t: Thunk, args: seq<Value>, i: nat, mem: Memory, w: World)
    requires ValidAbi(abi) && CallbacksFit(t) && FittingArgs(abi, t, args) && i <= |args|
    requires |mem| == StructSize(abi, Fields(t))
    ensures var r := RunWrites(abi, Fields(t), Params(t.params), args, Writes(t), i, mem, w);
            && |PassFrom(t, args, i, w).0| == |args| - i
            && r.Done? && r.value.1 == PassFrom(t, args, i, w).1
            && Passed(abi, Fields(t), mem, r.value.0, i, PassFrom(t, args, i, w).0)
    decreases |args| - i
  {
    assert |Fields(t)| >= |args|;
    hide FieldValue, PassOne, EvalGuest, WriteNamed, Fields, StructSize, PackerWrite;
    PassLength(t, args, i, w);
    if i < |args| {
      var mem1 := WriteStep(abi, t, args, i, mem, w);
      var w1 := PassOne(t, args[i], i, w).1;
      WritesPass(abi, t, args, i + 1, mem1, w1);
      var mem2 := RunWrites(abi, Fields(t), Params(t.params), args, Writes(t), i + 1, mem1, w1).value.0;
      PassedOneMore(abi, Fields(t), mem, mem1, mem2, i, PassOne(t, args[i], i, w).0, PassFrom(t, args, i + 1, w1).0);
    }
  }

  lemma {:induction false} WriteStep(abi: Abi, t: Thunk, args: seq<Value>, i: nat, mem: Memory,
      w: World) returns (mem1: Memory)
    requires ValidAbi(abi) && CallbacksFit(t) && FittingArgs(abi, t, args) && i < |args|
    requires |mem| == StructSize(abi, Fields(t))
    ensures |mem1| == |mem|
    ensures FieldValue(abi, Fields(t), mem1, i) == PassOne(t, args[i], i, w).0
    ensures forall j | 0 <= j < i :: FieldValue(abi, Fields(t), mem1, j) == FieldValue(abi, Fields(t), mem, j)
    ensures RunWrites(abi, Fields(t), Params(t.params), args, Writes(t), i, mem, w)
            == RunWrites(abi, Fields(t), Params(t.params), args, Writes(t), i + 1, mem1, PassOne(t, args[i], i, w).1)
  {
    FieldNamesDistinct(t);
    EvalGuestIsPassOne(t, args, i, w);
    PassOneSize(abi, t, args, i, w);
    assert Fields(t)[i] == Member(ArgName(i), Unqualified(t.params[i]));
    assert abi.size(Fields(t)[i].ctype) == abi.size(t.params[i]);
    WriteField(abi, Fields(t), mem, i, PassOne(t, args[i], i, w).0);
    mem1 := WriteNamed(abi, Fields(t), mem, ArgName(i), PassOne(t, args[i], i, w).0).value;
    assert Writes(t)[i] == PackerWrite(t, i);
  }

  // ----- host side -----

  lemma EvalHostIsReceiveOne(abi: Abi, t: Thunk, mem: Memory, stubs: set<string>, i: nat, w: World)
    requires ValidAbi(abi) && CallbacksFit(t) && i < |t.params| && |mem| == StructSize(abi, Fields(t))
    requires i in t.callbacks && t.callbacks[i].isStub ==> StubName(t.name, i) in stubs
    ensures EvalHost(abi, Fields(t), mem, stubs, HostArg(t, i), w)
            == ReceiveOne(t, FieldValue(abi, Fields(t), mem, i), i, w)
  {
    FieldNamesDistinct(t);
    ReadField(abi, Fields(t), mem, i);
    UnqualifiedKeeps(t.params[i]);
  }

  lemma {:induction false} ArgsReceived(abi: Abi, t: Thunk, mem: Memory, stubs: set<string>, vs: seq<Value>, i: nat,
      w: World)
    requires ValidAbi(abi) && CallbacksFit(t) && i <= |t.params| == |vs| && |mem| == StructSize(abi, Fields(t))
    requires forall k | k in t.callbacks && t.callbacks[k].isStub :: StubName(t.name, k) in stubs
    requires forall j | 0 <= j < |vs| :: FieldValue(abi, Fields(t), mem, j) == vs[j]
    ensures EvalHostArgs(abi, Fields(t), mem, stubs, UnpackerOf("", t).args, i, w) == ReceiveFrom(t, vs, i, w)
    decreases |vs| - i
  {
    hide FieldValue, Fields, EvalHost, ReceiveOne, HostArg, StructMembers, StubName, UnpackName, CalleeName;
    if i < |vs| {
      EvalHostIsReceiveOne(abi, t, mem, stubs, i, w);
      var r := ReceiveOne(t, vs[i], i, w);
      if r.Done? { ArgsReceived(abi, t, mem, stubs, vs, i + 1, r.value.1); }
    }
  }
}
