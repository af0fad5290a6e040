/** The emission loops: guest and host code print the same thunk in separate passes. */
module EmissionLoops {
  import opened Options
  import opened CTypes
  import opened Declarators
  import opened Texts
  import opened DigestText
  import opened Generator
  import opened Emission

  /** The struct as the guest pass prints it. */
  method GuestStruct(t: Thunk) returns (members: seq<seq<Token>>)
    ensures members == StructMembers(t)
  {
    members := [];
    for i := 0 to |t.params|
      invariant members == ArgMembers(t.params)[..i]
    {
      members := members + [FormatDecl(Unqualified(t.params[i]), ArgName(i))];
    }
    if !IsVoid(t.ret) {
      members := members + [FormatDecl(t.ret, "rv")];
    } else if |t.params| == 0 {
      members := members + [FORCE_NONEMPTY];
    }
  }

  /** `format_struct_members`. */
  method FormatStructMembers(params: seq<CType>) returns (members: seq<seq<Token>>)
    ensures members == ArgMembers(params)
  {
    members := [];
    for i := 0 to |params|
      invariant members == ArgMembers(params)[..i]
    {
      members := members + [FormatDecl(Unqualified(params[i]), ArgName(i))];
    }
  }

  /** The struct as the host pass prints it. */
  method HostStruct(t: Thunk) returns (members: seq<seq<Token>>)
    ensures members == StructMembers(t)
  {
    members := FormatStructMembers(t.params);
    if !IsVoid(t.ret) {
      members := members + [FormatDecl(t.ret, "rv")];
    } else if |t.params| == 0 {
      members := members + [FORCE_NONEMPTY];
    }
  }

  method EmitPacker(lib: string, t: Thunk) returns (p: Packer)
    ensures p == PackerOf(lib, t)
    ensures p.name == "fexfn_pack_" + t.name && p.thunk == "fexthunks_" + lib + "_" + t.name
  {
    var params := [];
    for i := 0 to |t.params|
      invariant params == ParamDecls(t.params)[..i]
    {
      params := params + [FormatDecl(t.params[i], ArgName(i))];
    }
    var members := GuestStruct(t);
    var writes := [];
    for i := 0 to |t.params|
      invariant |writes| == i && forall j | 0 <= j < i :: writes[j] == PackerWrite(t, j)
    {
      if i !in t.callbacks || t.callbacks[i].isStub || t.callbacks[i].isGuest {
        writes := writes + [FieldWrite(ArgName(i), Argument(ArgName(i)))];
      } else {
        writes := writes + [FieldWrite(ArgName(i), AllocateTrampoline(ArgName(i)))];
      }
    }
    p := Packer(PackName(t.name), params, members, writes, ThunkSymbol(lib, t.name), !IsVoid(t.ret));
  }

  method EmitUnpacker(lib: string, t: Thunk) returns (u: Unpacker)
    ensures u == UnpackerOf(lib, t)
    ensures u.name == "fexfn_unpack_" + lib + "_" + t.name
    ensures u.callee == (if t.customHost then "fexfn_impl_" else "fexldr_ptr_") + lib + "_" + t.name
  {
    var members := HostStruct(t);
    var callee := LoaderPointer(lib, t.name);
    if t.customHost {
      callee := ImplName(lib, t.name);
    }
    var args := [];
    for i := 0 to |t.params|
      invariant |args| == i && forall j | 0 <= j < i :: args[j] == HostArg(t, j)
    {
      if i in t.callbacks && t.callbacks[i].isStub {
        args := args + [StubFunction(StubName(t.name, i))];
      } else if i in t.callbacks && t.callbacks[i].isGuest {
        args := args + [WrapGuestPointer(ArgName(i))];
      } else if i in t.callbacks {
        args := args + [FinalizeTrampoline(ArgName(i))];
      } else {
        args := args + [ReadField(ArgName(i))];
      }
    }
    u := Unpacker(UnpackName(lib, t.name), members, callee, args, !IsVoid(t.ret));
  }

  /** The stub of callback `k`; the parameter list is that of `format_function_params`. */
  method EmitStub(name: string, k: nat, callee: CType) returns (s: StubDeclaration)
    requires callee.Fn?
    ensures s == StubOf(name, k, callee)
  {
    var params := [];
    for i := 0 to |callee.params|
      invariant params == ParamDecls(callee.params)[..i]
    {
      params := params + [FormatDecl(callee.params[i], ArgName(i))];
    }
    s := StubDeclaration("fexfn_unpack_" + name + "CBFN" + NatText(k) + "_stub", Signature(callee.ret), params,
        callee.variadic);
  }

  method EmitPointers(lib: string, api: seq<Api>) returns (pointers: seq<PointerDeclaration>)
    ensures pointers == Pointers(lib, api)
  {
    pointers := [];
    for i := 0 to |api|
      invariant |pointers| == i && forall j | 0 <= j < i :: pointers[j] == PointerOf(lib, api[j])
    {
      var params := [];
      for k := 0 to |api[i].params|
        invariant params == ParamDecls(api[i].params)[..k]
      {
        params := params + [FormatDecl(api[i].params[k], ArgName(k))];
      }
      pointers := pointers + [PointerDeclaration(LoaderPointer(lib, api[i].name), params, api[i].variadic)];
    }
  }

  lemma {:induction false} AliasesSnoc(api: seq<Api>, a: Api)
    ensures Aliases(api + [a]) == Aliases(api) + (if a.customGuest then [] else [AliasOf(a)])
  {
    hide AliasOf;
    if api == [] {
      assert api + [a] == [a] && [a][1..] == [];
    } else {
      assert (api + [a])[1..] == api[1..] + [a];
      AliasesSnoc(api[1..], a);
    }
  }

  method EmitAliases(api: seq<Api>) returns (aliases: seq<PublicAlias>)
    ensures aliases == Aliases(api)
  {
    hide Aliases, AliasOf;
    aliases := [];
    assert Aliases([]) == [] by { NoAliases(); }
    for i := 0 to |api|
      invariant aliases == Aliases(api[..i])
    {
      AliasesSnoc(api[..i], api[i]);
      assert api[..i] + [api[i]] == api[..i + 1];
      if !api[i].customGuest {
        aliases := aliases + [AliasOf(api[i])];
      }
    }
    assert api[..|api|] == api;
  }

  lemma NoAliases()
    ensures Aliases([]) == []
  {
  }

  method EmitSymbolList(api: seq<Api>, k: nat) returns (names: seq<string>)
    ensures names == SymbolList(api, k)
  {
    names := [];
    for i := 0 to |api|
      invariant names + SymbolList(api[i..], k) == SymbolList(api, k)
    {
      assert api[i..][1..] == api[i + 1..];
      if ListOf(api[i]) == k {
        names := names + [api[i].name];
      }
    }
  }

  /** The entry of a thunk: the literal is read as its digest. */
  predicate ThunkEntryReads(e: Export, lib: string, sha: Sha, name: string) {
    && ParseLiteral(e.literal) == Some(sha(lib + ":" + name))
    && e.target == "fexfn_unpack_" + lib + "_" + name
  }

  predicate CallbackEntryReads(e: Export, lib: string, sha: Sha, t: CType) {
    var text := Text(Signature(t));
    && ParseLiteral(e.literal) == Some(sha(lib + ":" + ("fexcallback_" + text)))
    && e.target == "CallbackUnpack<" + text + ">::ForIndirectCall"
  }

  lemma ThunkEntry(lib: string, sha: Sha, t: Thunk)
    ensures ThunkEntryReads(ThunkExport(lib, sha, t), lib, sha, t.name)
  {
    hide ParseLiteral, HostDigest;
    HostDigestParses(sha(lib + ":" + t.name));
  }

  lemma CallbackEntryRead(lib: string, sha: Sha, t: CType)
    ensures CallbackEntryReads(CallbackExport(lib, sha, t), lib, sha, t)
  {
    hide ParseLiteral, HostDigest, Signature;
    HostDigestParses(sha(lib + ":" + ("fexcallback_" + Text(Signature(t)))));
  }

  lemma EntriesRead(lib: string, sha: Sha, thunks: seq<Thunk>, types: seq<CType>)
    ensures var exports := Exports(lib, sha, thunks, types);
            && |exports| == |thunks| + |types|
            && (forall i | 0 <= i < |thunks| :: ThunkEntryReads(exports[i], lib, sha, thunks[i].name))
            && forall i | 0 <= i < |types| :: CallbackEntryReads(exports[|thunks| + i], lib, sha, types[i])
  {
    hide ThunkEntryReads, CallbackEntryReads, ThunkExport, CallbackExport;
    forall i | 0 <= i < |thunks| ensures ThunkEntryReads(ThunkExport(lib, sha, thunks[i]), lib, sha, thunks[i].name) {
      ThunkEntry(lib, sha, thunks[i]);
    }
    forall i | 0 <= i < |types| ensures CallbackEntryReads(CallbackExport(lib, sha, types[i]), lib, sha, types[i]) {
      CallbackEntryRead(lib, sha, types[i]);
    }
  }

  method EmitExports(lib: string, sha: Sha, thunks: seq<Thunk>, types: seq<CType>) returns (exports: seq<Export>)
    ensures exports == Exports(lib, sha, thunks, types) && |exports| == |thunks| + |types|
    ensures forall i | 0 <= i < |thunks| :: ThunkEntryReads(exports[i], lib, sha, thunks[i].name)
    ensures forall i | 0 <= i < |types| :: CallbackEntryReads(exports[|thunks| + i], lib, sha, types[i])
  {
    hide HostDigest, ParseLiteral, Message, UnpackName, CallbackTarget, CallbackEntry, Signature, ThunkEntryReads,
      CallbackEntryReads;
    EntriesRead(lib, sha, thunks, types);
    exports := [];
    for i := 0 to |thunks|
      invariant |exports| == i && forall j | 0 <= j < i :: exports[j] == ThunkExport(lib, sha, thunks[j])
    {
      var literal := PrintTableDigest(sha(Message(lib, thunks[i].name)));
      exports := exports + [Export(literal, UnpackName(lib, thunks[i].name), None)];
    }
    for i := 0 to |types|
      invariant |exports| == |thunks| + i
      invariant forall j | 0 <= j < |thunks| :: exports[j] == ThunkExport(lib, sha, thunks[j])
      invariant forall j | 0 <= j < i :: exports[|thunks| + j] == CallbackExport(lib, sha, types[j])
    {
      var literal := PrintTableDigest(sha(Message(lib, CallbackEntry(types[i]))));
      exports := exports + [Export(literal, CallbackTarget(Text(Signature(types[i]))), Some(Signature(types[i])))];
    }
  }
}
