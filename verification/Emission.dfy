/**
 The files the generator emits, as data: every declaration, expression and name that is printed, in the
 order in which it is printed.
 */
module Emission {
  import opened Options
  import opened CTypes
  import opened Declarators
  import opened Texts
  import opened Bytes
  import opened DigestText
  import opened Generator

  // ----- names -----

  function PackName(n: string): string { "fexfn_pack_" + n }
  function ThunkSymbol(lib: string, n: string): string { "fexthunks_" + lib + "_" + n }
  function UnpackName(lib: string, n: string): string { "fexfn_unpack_" + lib + "_" + n }
  function LoaderPointer(lib: string, n: string): string { "fexldr_ptr_" + lib + "_" + n }
  function ImplName(lib: string, n: string): string { "fexfn_impl_" + lib + "_" + n }
  function StubName(n: string, i: nat): string { "fexfn_unpack_" + n + "CBFN" + NatText(i) + "_stub" }
  function CallbackTarget(signature: string): string { "CallbackUnpack<" + signature + ">::ForIndirectCall" }

  /** The message whose digest identifies an entry of library `lib`. */
  function Message(lib: string, entry: string): string { lib + ":" + entry }

  function CallbackEntry(t: CType): string { "fexcallback_" + Text(Signature(t)) }

  type Sha = string -> seq<byte>

  // ----- guest files -----

  /** `MAKE_THUNK`: the symbol and the operands of its `.byte` directive. */
  datatype GuestThunk = GuestThunk(symbol: string, bytes: string)

  /** `MAKE_CALLBACK_THUNK`: the function type it invokes host pointers of, and its bytes. */
  datatype CallbackThunk = CallbackThunk(signature: string, bytes: string)

  datatype PublicAlias = PublicAlias(name: string, target: string, params: seq<seq<Token>>)

  datatype GuestExpr =
    | Argument(name: string)
    | AllocateTrampoline(name: string)

  datatype FieldWrite = FieldWrite(field: string, value: GuestExpr)

  datatype Packer = Packer(name: string, params: seq<seq<Token>>, members: seq<seq<Token>>, writes: seq<FieldWrite>,
                           thunk: string, returnsRv: bool)

  // ----- host files -----

  datatype HostExpr =
    | ReadField(field: string)
    | StubFunction(name: string)
    | WrapGuestPointer(field: string)
    | FinalizeTrampoline(field: string)

  datatype Unpacker = Unpacker(name: string, members: seq<seq<Token>>, callee: string, args: seq<HostExpr>,
      storesRv: bool)

  /**
   An entry of the export table: the literal with its digest and the function it names. That of a callback is in
   an instance of a template, for a printed type.
   */
  datatype Export = Export(literal: string, target: string, instance: Option<seq<Token>>)

  /** A function to pass for a callback that must not be called; its result type and parameters as printed. */
  datatype StubDeclaration = StubDeclaration(name: string, ret: seq<Token>, params: seq<seq<Token>>, variadic: bool)

  /** The declaration of a loader pointer, with the parameters of its function type. */
  datatype PointerDeclaration = PointerDeclaration(name: string, params: seq<seq<Token>>, variadic: bool)

  datatype LoaderAssignment = LoaderAssignment(pointer: string, loader: string, symbol: string)

  datatype Files = Files(thunks: seq<GuestThunk>, callbackThunks: seq<CallbackThunk>, aliases: seq<PublicAlias>,
                         packers: seq<Packer>, stubs: set<StubDeclaration>, unpackers: seq<Unpacker>,
                         exports: seq<Export>, assignments: seq<LoaderAssignment>,
                         pointers: seq<PointerDeclaration>, symbolLists: seq<seq<string>>)

  // ----- the argument struct -----

  const FORCE_NONEMPTY: seq<Token> := [TSpec(Builtin("char")), TSpace, TIdent("force_nonempty")]

  function ArgMember(t: CType, i: nat): seq<Token> { FormatDecl(Unqualified(t), ArgName(i)) }

  function ArgMembers(params: seq<CType>): seq<seq<Token>> {
    seq(|params|, i requires 0 <= i < |params| => ArgMember(params[i], i))
  }

  function ParamDecls(params: seq<CType>): seq<seq<Token>> {
    seq(|params|, i requires 0 <= i < |params| => FormatDecl(params[i], ArgName(i)))
  }

  function LastMember(t: Thunk): seq<seq<Token>> {
    if !IsVoid(t.ret) then [FormatDecl(t.ret, "rv")]
    else if t.params == [] then [FORCE_NONEMPTY]
    else []
  }

  function StructMembers(t: Thunk): seq<seq<Token>> { ArgMembers(t.params) + LastMember(t) }

  // ----- one thunk -----

  function PackerWrite(t: Thunk, i: nat): FieldWrite {
    FieldWrite(ArgName(i),
               if i !in t.callbacks || t.callbacks[i].isStub || t.callbacks[i].isGuest then Argument(ArgName(i))
               else AllocateTrampoline(ArgName(i)))
  }

  function PackerOf(lib: string, t: Thunk): Packer {
    Packer(PackName(t.name), ParamDecls(t.params), StructMembers(t),
        seq(|t.params|, i requires 0 <= i < |t.params| => PackerWrite(t, i)),
           ThunkSymbol(lib, t.name), !IsVoid(t.ret))
  }

  function HostArg(t: Thunk, i: nat): HostExpr {
    if i !in t.callbacks then ReadField(ArgName(i))
    else if t.callbacks[i].isStub then StubFunction(StubName(t.name, i))
    else if t.callbacks[i].isGuest then WrapGuestPointer(ArgName(i))
    else FinalizeTrampoline(ArgName(i))
  }

  function CalleeName(lib: string, t: Thunk): string {
    if t.customHost then ImplName(lib, t.name) else LoaderPointer(lib, t.name)
  }

  function UnpackerOf(lib: string, t: Thunk): Unpacker {
    Unpacker(UnpackName(lib, t.name), StructMembers(t), CalleeName(lib, t),
        seq(|t.params|, i requires 0 <= i < |t.params| => HostArg(t, i)),
             !IsVoid(t.ret))
  }

  // ----- the lists -----

  function GuestThunkOf(lib: string, sha: Sha, t: Thunk): GuestThunk {
    GuestThunk(ThunkSymbol(lib, t.name), GuestDigest(sha(Message(lib, t.name))))
  }

  function CallbackThunkOf(lib: string, sha: Sha, t: CType): CallbackThunk {
    CallbackThunk(Text(Signature(t)), GuestDigest(sha(Message(lib, CallbackEntry(t)))))
  }

  function ThunkExport(lib: string, sha: Sha, t: Thunk): Export {
    Export(HostDigest(sha(Message(lib, t.name))), UnpackName(lib, t.name), None)
  }

  function CallbackExport(lib: string, sha: Sha, t: CType): Export {
    Export(HostDigest(sha(Message(lib, CallbackEntry(t)))), CallbackTarget(Text(Signature(t))), Some(Signature(t)))
  }

  function AliasOf(a: Api): PublicAlias {
    PublicAlias(a.name, PackName(a.name), ParamDecls(a.params))
  }

  function Aliases(api: seq<Api>): seq<PublicAlias> {
    if api == [] then [] else (if api[0].customGuest then [] else [AliasOf(api[0])]) + Aliases(api[1..])
  }

  /** The list a symbol goes to: that of its symbol table's namespace, or else the first one. */
  function ListOf(a: Api): nat { if a.symtable.Some? then a.symtable.value else 0 }

  function SymbolList(api: seq<Api>, k: nat): seq<string> {
    if api == [] then [] else (if ListOf(api[0]) == k then [api[0].name] else []) + SymbolList(api[1..], k)
  }

  function StubOf(name: string, k: nat, callee: CType): StubDeclaration
    requires callee.Fn?
  {
    StubDeclaration(StubName(name, k), Signature(callee.ret), ParamDecls(callee.params), callee.variadic)
  }

  function Stubs(thunks: seq<Thunk>): set<StubDeclaration> {
    set i, k | 0 <= i < |thunks| && k in thunks[i].callbacks && thunks[i].callbacks[k].isStub
        && thunks[i].callbacks[k].spelled.Fn? ::
      StubOf(thunks[i].name, k, thunks[i].callbacks[k].spelled)
  }

  function GuestThunks(lib: string, sha: Sha, thunks: seq<Thunk>): seq<GuestThunk> {
    seq(|thunks|, i requires 0 <= i < |thunks| => GuestThunkOf(lib, sha, thunks[i]))
  }

  function CallbackThunks(lib: string, sha: Sha, types: seq<CType>): seq<CallbackThunk> {
    seq(|types|, i requires 0 <= i < |types| => CallbackThunkOf(lib, sha, types[i]))
  }

  function Packers(lib: string, thunks: seq<Thunk>): seq<Packer> {
    seq(|thunks|, i requires 0 <= i < |thunks| => PackerOf(lib, thunks[i]))
  }

  function Unpackers(lib: string, thunks: seq<Thunk>): seq<Unpacker> {
    seq(|thunks|, i requires 0 <= i < |thunks| => UnpackerOf(lib, thunks[i]))
  }

  function ThunkExports(lib: string, sha: Sha, thunks: seq<Thunk>): seq<Export> {
    seq(|thunks|, i requires 0 <= i < |thunks| => ThunkExport(lib, sha, thunks[i]))
  }

  function CallbackExports(lib: string, sha: Sha, types: seq<CType>): seq<Export> {
    seq(|types|, i requires 0 <= i < |types| => CallbackExport(lib, sha, types[i]))
  }

  function Exports(lib: string, sha: Sha, thunks: seq<Thunk>, types: seq<CType>): seq<Export> {
    ThunkExports(lib, sha, thunks) + CallbackExports(lib, sha, types)
  }

  function Assignments(lib: string, api: seq<Api>): seq<LoaderAssignment> {
    seq(|api|, i requires 0 <= i < |api| =>
      LoaderAssignment(LoaderPointer(lib, api[i].name), api[i].loader, api[i].name))
  }

  function PointerOf(lib: string, a: Api): PointerDeclaration {
    PointerDeclaration(LoaderPointer(lib, a.name), ParamDecls(a.params), a.variadic)
  }

  function Pointers(lib: string, api: seq<Api>): seq<PointerDeclaration> {
    seq(|api|, i requires 0 <= i < |api| => PointerOf(lib, api[i]))
  }

  function SymbolLists(api: seq<Api>, n: nat): seq<seq<string>> {
    seq(n, k requires 0 <= k < n => SymbolList(api, k))
  }

  function FilesOf(lib: string, sha: Sha, st: State): Files {
    Files(GuestThunks(lib, sha, st.thunks), CallbackThunks(lib, sha, st.types), Aliases(st.api),
        Packers(lib, st.thunks),
          Stubs(st.thunks), Unpackers(lib, st.thunks), Exports(lib, sha, st.thunks, st.types), Assignments(lib, st.api),
          Pointers(lib, st.api), SymbolLists(st.api, |st.namespaces|))
  }
}
