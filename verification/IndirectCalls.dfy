/** Symbol lists and the calls of host function pointers by guest code. */
module IndirectCalls {
  import opened Options
  import opened CTypes
  import opened Declarators
  import opened DigestText
  import opened Bytes
  import opened Generator
  import opened GeneratorInvariant
  import opened Emission
  import opened ThunkRuntime
  import opened EmittedNames
  import opened PackedArguments
  import opened DeclarationPrinting

  // ----- the symbol lists partition the API -----

  function Names(api: seq<Api>): multiset<string> {
    if api == [] then multiset{} else multiset{api[0].name} + Names(api[1..])
  }

  /** The symbols of the first `n` lists together. */
  function Listed(api: seq<Api>, n: nat): multiset<string> {
    if n == 0 then multiset{} else Listed(api, n - 1) + multiset(SymbolList(api, n - 1))
  }

  lemma {:induction false} ListedStep(api: seq<Api>, n: nat)
    requires api != []
    ensures Listed(api, n) == Listed(api[1..], n) + (if ListOf(api[0]) < n then multiset{api[0].name} else multiset{})
  {
    if n > 0 { ListedStep(api, n - 1); }
  }

  lemma {:induction false} ListedAll(api: seq<Api>, n: nat)
    requires forall i | 0 <= i < |api| :: ListOf(api[i]) < n
    ensures Listed(api, n) == Names(api)
  {
    if api == [] {
      ListedNothing(n);
    } else {
      ListedStep(api, n);
      ListedAll(api[1..], n);
    }
  }

  lemma {:induction false} ListedNothing(n: nat)
    ensures Listed([], n) == multiset{}
  {
    if n > 0 { ListedNothing(n - 1); }
  }

  /** Every API function is in exactly one of the lists, as often as it is in the API. */
  lemma ListsPartition(st: State)
    requires Invariant(st)
    ensures Listed(st.api, |st.namespaces|) == Names(st.api)
  {
    forall i | 0 <= i < |st.api|
      ensures ListOf(st.api[i]) < |st.namespaces|
    {
      assert ApiOk(st.api[i], st.namespaces, st.types, i < |st.thunks|);
    }
    ListedAll(st.api, |st.namespaces|);
  }

  lemma {:induction false} ListedFrom(api: seq<Api>, k: nat, name: string) returns (i: nat)
    requires name in SymbolList(api, k)
    ensures i < |api| && api[i].name == name && ListOf(api[i]) == k
  {
    if ListOf(api[0]) == k && api[0].name == name {
      i := 0;
    } else {
      i := ListedFrom(api[1..], k, name);
      i := i + 1;
    }
  }

  // ----- listed symbols can be called through a pointer -----

  function SignatureOf(a: Api): CType {
    Canonical(Fn(a.ret, a.params, a.variadic))
  }

  /** Guest code can call host pointers with the signature of every symbol of list `k`: it is known and callable. */
  predicate ListCallable(st: State, k: nat)
    requires |st.thunks| <= |st.api|
  {
    forall i | 0 <= i < |st.thunks| && ListOf(st.api[i]) == k ::
      SignatureOf(st.api[i]) in st.types && CallableType(SignatureOf(st.api[i]))
  }

  /**
   The list of a namespace with a symbol table and indirect calls is callable if and only if its signatures are
   callable types, and, for the first list, which also takes the symbols that have no symbol table, those have known
   signatures.
   */
  lemma ListsCallable(st: State, k: nat)
    requires Invariant(st) && k < |st.namespaces| && st.namespaces[k].symtable && st.namespaces[k].indirect
    ensures ListCallable(st, k)
            <==> (forall i | 0 <= i < |st.thunks| && ListOf(st.api[i]) == k :: CallableType(SignatureOf(st.api[i])))
                 && (k > 0 || forall i | 0 <= i < |st.thunks| && st.api[i].symtable == None ::
                       SignatureOf(st.api[i]) in st.types)
  {
    hide CallableType, Canonical;
    forall i | 0 <= i < |st.thunks| && st.api[i].symtable == Some(k)
      ensures SignatureOf(st.api[i]) in st.types
    {
      assert ApiOk(st.api[i], st.namespaces, st.types, true);
    }
  }

  /** A run whose first list is not callable: its namespace comes first, and a plain namespace follows. */
  lemma FirstListNotCallable() returns (visits: seq<Visit>, states: seq<State>)
    ensures Run(visits, states)
    ensures var st := states[|visits|];
            !st.failed && Invariant(st) && st.namespaces != [] && st.namespaces[0].symtable
                && st.namespaces[0].indirect && !ListCallable(st, 0)
  {
    var f := Function("f", VOID, [], false);
    var v0 := ClassTemplate("fex_gen_config", Some("internal"), true,
                            ["fexgen::generate_guest_symtable", "fexgen::indirect_guest_calls"], []);
    var v1 := ClassTemplate("fex_gen_config", None, true, [], []);
    var v2 := ConfigSpecialization(None, false, f, [], []);
    visits := [v0, v1, v2];
    var bases := v0.bases;
    assert bases[1..] == ["fexgen::indirect_guest_calls"];
    assert bases[1..][1..] == [];
    var a1 := NO_NAMESPACE_ANNOTATIONS.(symtable := true);
    assert NamespaceBases(a1, bases[1..]) == Ok(a1.(indirect := true));
    assert NamespaceBases(NO_NAMESPACE_ANNOTATIONS, bases) == Ok(a1.(indirect := true));
    var s1 := INITIAL.(namespaces := [Namespace("internal", "", true, true)]);
    assert Step(INITIAL, v0) == s1;
    var s2 := INITIAL.(namespaces := [Namespace("internal", "", true, true), Namespace("", "", false, false)]);
    assert Step(s1, v1) == s2;
    assert s2.namespaces[1..] == [Namespace("", "", false, false)];
    assert NamespaceIndex(s2.namespaces, "") == 1;
    var api := Api("f", VOID, [], "dlsym", false, false, None);
    var s3 := s2.(api := [api], thunks := [Thunk("f", VOID, [], false, false, map[])]);
    assert GetAnnotations([], []) == Ok(NO_ANNOTATIONS);
    assert !IsFunctionPointer(VOID);
    assert ScanParams(Scan(map[], [], false), NO_ANNOTATIONS, 0, []) == Scan(map[], [], false);
    assert Step(s2, v2) == s3;
    states := [INITIAL, s1, s2, s3];
    hide Invariant, Step, NamespaceIndex, GetAnnotations, ScanParams;
    GeneratorInvariant.RunKeeps(visits, states, 3);
    assert ListOf(s3.api[0]) == 0;
  }

  // ----- the digest of a callback thunk leads to its host side -----

  lemma {:induction false} LoadedSame(exports: seq<Export>, k: nat, digest: seq<byte>, target: string,
      table: map<seq<byte>, string>)
    requires k < |exports| && ParseLiteral(exports[k].literal) == Some(digest)
    requires forall j | 0 <= j < |exports| && ParseLiteral(exports[j].literal) == Some(digest) ::
               exports[j].target == target
    ensures digest in LoadExports(exports, table) && LoadExports(exports, table)[digest] == target
    decreases |exports| - k
  {
    if j :| k < j < |exports| && ParseLiteral(exports[j].literal) == Some(digest) {
      LoadedSame(exports, j, digest, target, table);
    } else {
      LoadedLast(exports, k, digest, table);
    }
  }

  /** A registered function type: guest thunk and host export are there and the digest joins them. */
  lemma CallbackReached(lib: string, sha: Sha, st: State, t: CType, table: map<seq<byte>, string>) returns (k: nat)
    requires NamedProperly(st) && Digests(sha, lib, st) && t in st.types
    ensures var f := FilesOf(lib, sha, st);
            && k < |f.callbackThunks| && f.callbackThunks[k].signature == Text(Signature(t))
            && var digest := ParseByteList(f.callbackThunks[k].bytes);
            && digest.Some?
            && digest.value in LoadExports(f.exports, table)
            && LoadExports(f.exports, table)[digest.value] == CallbackTarget(Text(Signature(t)))
    ensures WellFormed(t) && Compiles(FilesOf(lib, sha, st)) ==> CallableType(t)
  {
    CallbackCompiles(lib, sha, st, t);
    hide HostDigest, GuestDigest, ParseByteList, ParseLiteral, LoadExports, Exports, Message, UnpackName,
      CallbackTarget, CallbackEntry, Signature;
    k :| 0 <= k < |st.types| && st.types[k] == t;
    var m := Message(lib, CallbackEntry(t));
    assert m in Messages(lib, st);
    GuestDigestParses(sha(m));
    CallbackExported(lib, sha, st, k, table);
  }

  /** The host side of a registered type exists, or the export table does not compile. */
  lemma CallbackCompiles(lib: string, sha: Sha, st: State, t: CType)
    requires t in st.types
    ensures WellFormed(t) && Compiles(FilesOf(lib, sha, st)) ==> CallableType(t)
  {
    hide HostDigest, Message, UnpackName, CallbackTarget, Signature, CallableType, PackerCompiles, UnpackerCompiles,
      StubCompiles, ListCompiles, ForIndirectCallCompiles;
    if WellFormed(t) && Compiles(FilesOf(lib, sha, st)) {
      var k :| 0 <= k < |st.types| && st.types[k] == t;
      assert Exports(lib, sha, st.thunks, st.types)[|st.thunks| + k] == CallbackExport(lib, sha, t);
      assert FilesOf(lib, sha, st).exports[|st.thunks| + k] == CallbackExport(lib, sha, t);
      SignatureParses(t);
      CallableExactly(t);
    }
  }

  lemma CallbackExported(lib: string, sha: Sha, st: State, k: nat, table: map<seq<byte>, string>)
    requires NamedProperly(st) && Digests(sha, lib, st) && k < |st.types|
    ensures var digest := sha(Message(lib, CallbackEntry(st.types[k])));
            var loaded := LoadExports(Exports(lib, sha, st.thunks, st.types), table);
            digest in loaded && loaded[digest] == CallbackTarget(Text(Signature(st.types[k])))
  {
    hide HostDigest, ParseLiteral, LoadExports, Message, UnpackName, CallbackTarget, CallbackEntry, Signature;
    var exports, t := Exports(lib, sha, st.thunks, st.types), st.types[k];
    var digest := sha(Message(lib, CallbackEntry(t)));
    HostDigestParses(digest);
    assert exports[|st.thunks| + k] == CallbackExport(lib, sha, t);
    forall j | 0 <= j < |exports| && ParseLiteral(exports[j].literal) == Some(digest)
      ensures exports[j].target == CallbackTarget(Text(Signature(t)))
    {
      ExportWithMessage(lib, sha, st, j, t);
    }
    LoadedSame(exports, |st.thunks| + k, digest, CallbackTarget(Text(Signature(t))), table);
  }

  lemma ExportWithMessage(lib: string, sha: Sha, st: State, j: nat, t: CType)
    requires NamedProperly(st) && Digests(sha, lib, st) && t in st.types
    requires j < |Exports(lib, sha, st.thunks, st.types)|
    requires ParseLiteral(Exports(lib, sha, st.thunks, st.types)[j].literal)
             == Some(sha(Message(lib, CallbackEntry(t))))
    ensures Exports(lib, sha, st.thunks, st.types)[j].target == CallbackTarget(Text(Signature(t)))
  {
    hide HostDigest, ParseLiteral, Message, UnpackName, CallbackTarget, Signature;
    var f, m := FilesOf(lib, sha, st), Message(lib, CallbackEntry(t));
    assert m in Messages(lib, st);
    if j < |st.thunks| {
      var m' := Message(lib, st.thunks[j].name);
      assert m' in Messages(lib, st);
      HostDigestParses(sha(m'));
      CallbackMessagesDiffer(lib, t, st.thunks[j].name);
    } else {
      var u := st.types[j - |st.thunks|];
      assert f.exports[j] == CallbackExport(lib, sha, u);
      var m' := Message(lib, CallbackEntry(u));
      assert m' in Messages(lib, st);
      HostDigestParses(sha(m'));
      if CallbackEntry(u) != CallbackEntry(t) { LibraryNamesDiffer(lib, CallbackEntry(u), CallbackEntry(t)); }
      if Text(Signature(u)) != Text(Signature(t)) {
        PrefixedNamesDiffer("fexcallback_", Text(Signature(u)), Text(Signature(t)));
      }
    }
  }
}
