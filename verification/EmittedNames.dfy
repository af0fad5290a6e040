/** Names and digests lead to what was emitted for a thunk. */
module EmittedNames {
  import opened Options
  import opened CTypes
  import opened Declarators
  import opened Texts
  import opened Bytes
  import opened DigestText
  import opened Generator
  import opened GeneratorInvariant
  import opened Emission
  import opened ThunkRuntime
  import opened CallMeaning

  // ----- names lead to what was emitted for the thunk -----

  lemma {:induction false} FindPackerAt(ps: seq<Packer>, k: nat)
    requires k < |ps| && forall i, j | 0 <= i < j < |ps| :: ps[i].name != ps[j].name
    ensures FindPacker(ps, ps[k].name) == Some(ps[k])
  {
    if k > 0 { FindPackerAt(ps[1..], k - 1); }
  }

  lemma {:induction false} FindUnpackerAt(us: seq<Unpacker>, k: nat)
    requires k < |us| && forall i, j | 0 <= i < j < |us| :: us[i].name != us[j].name
    ensures FindUnpacker(us, us[k].name) == Some(us[k])
  {
    if k > 0 { FindUnpackerAt(us[1..], k - 1); }
  }

  lemma {:induction false} FindThunkAt(ts: seq<GuestThunk>, k: nat)
    requires k < |ts| && forall i, j | 0 <= i < j < |ts| :: ts[i].symbol != ts[j].symbol
    ensures FindThunk(ts, ts[k].symbol) == Some(ts[k])
  {
    if k > 0 { FindThunkAt(ts[1..], k - 1); }
  }

  lemma {:induction false} LastAssignmentAt(assignments: seq<LoaderAssignment>, k: nat)
    requires k < |assignments| && forall i, j | 0 <= i < j < |assignments| ::
             assignments[i].pointer != assignments[j].pointer
    ensures LastAssignment(assignments, assignments[k].pointer)
            == Some(HostSymbol(assignments[k].loader, assignments[k].symbol))
  {
    var n := |assignments| - 1;
    if k < n { LastAssignmentAt(assignments[..n], k); }
  }

  ghost predicate UniqueNames(st: State) {
    && (forall i, j | 0 <= i < j < |st.thunks| :: st.thunks[i].name != st.thunks[j].name)
    && (forall i, j | 0 <= i < j < |st.api| :: st.api[i].name != st.api[j].name)
  }

  lemma PrefixedNamesDiffer(p: string, a: string, b: string)
    requires a != b
    ensures p + a != p + b
  {
    if p + a == p + b { PrefixInjective(p, a, b); }
  }

  lemma LibraryNamesDiffer(lib: string, a: string, b: string)
    requires a != b
    ensures ThunkSymbol(lib, a) != ThunkSymbol(lib, b) && UnpackName(lib, a) != UnpackName(lib, b)
    ensures LoaderPointer(lib, a) != LoaderPointer(lib, b) && Message(lib, a) != Message(lib, b)
    ensures PackName(a) != PackName(b)
  {
    PrefixedNamesDiffer("fexthunks_" + lib + "_", a, b);
    PrefixedNamesDiffer("fexfn_unpack_" + lib + "_", a, b);
    PrefixedNamesDiffer("fexldr_ptr_" + lib + "_", a, b);
    PrefixedNamesDiffer(lib + ":", a, b);
    PrefixedNamesDiffer("fexfn_pack_", a, b);
  }

  lemma PackerAt(lib: string, st: State, k: nat)
    requires UniqueNames(st) && k < |st.thunks|
    ensures FindPacker(Packers(lib, st.thunks), PackName(st.thunks[k].name)) == Some(PackerOf(lib, st.thunks[k]))
  {
    var ps := Packers(lib, st.thunks);
    forall i, j | 0 <= i < j < |ps|
      ensures ps[i].name != ps[j].name
    {
      LibraryNamesDiffer(lib, st.thunks[i].name, st.thunks[j].name);
    }
    FindPackerAt(ps, k);
  }

  lemma UnpackerAt(lib: string, st: State, k: nat)
    requires UniqueNames(st) && k < |st.thunks|
    ensures FindUnpacker(Unpackers(lib, st.thunks), UnpackName(lib, st.thunks[k].name))
            == Some(UnpackerOf(lib, st.thunks[k]))
  {
    var us := Unpackers(lib, st.thunks);
    forall i, j | 0 <= i < j < |us|
      ensures us[i].name != us[j].name
    {
      LibraryNamesDiffer(lib, st.thunks[i].name, st.thunks[j].name);
    }
    FindUnpackerAt(us, k);
  }

  lemma GuestThunkAt(lib: string, sha: Sha, st: State, k: nat)
    requires UniqueNames(st) && k < |st.thunks|
    ensures FindThunk(GuestThunks(lib, sha, st.thunks), ThunkSymbol(lib, st.thunks[k].name))
            == Some(GuestThunkOf(lib, sha, st.thunks[k]))
  {
    var ts := GuestThunks(lib, sha, st.thunks);
    forall i, j | 0 <= i < j < |ts|
      ensures ts[i].symbol != ts[j].symbol
    {
      LibraryNamesDiffer(lib, st.thunks[i].name, st.thunks[j].name);
    }
    FindThunkAt(ts, k);
  }

  lemma AssignmentAt(lib: string, st: State, k: nat)
    requires UniqueNames(st) && k < |st.api|
    ensures LastAssignment(Assignments(lib, st.api), LoaderPointer(lib, st.api[k].name))
            == Some(HostSymbol(st.api[k].loader, st.api[k].name))
  {
    var xs := Assignments(lib, st.api);
    forall i, j | 0 <= i < j < |xs|
      ensures xs[i].pointer != xs[j].pointer
    {
      LibraryNamesDiffer(lib, st.api[i].name, st.api[j].name);
    }
    LastAssignmentAt(xs, k);
  }

  lemma PointerNames(lib: string, n: string)
    ensures "fexfn_impl_" <= ImplName(lib, n)
    ensures !("fexfn_impl_" <= LoaderPointer(lib, n))
  {
    assert LoaderPointer(lib, n)[3] == 'l' && "fexfn_impl_"[3] == 'f';
  }

  /** The callee of an unpacker is what the thunk stands for. */
  lemma CalleeResolves(lib: string, sha: Sha, st: State, k: nat)
    requires Invariant(st) && UniqueNames(st) && k < |st.thunks|
    ensures Resolve(FilesOf(lib, sha, st), CalleeName(lib, st.thunks[k]))
            == Some(TargetOf(lib, st.thunks[k], st.api[k]))
  {
    var t, a := st.thunks[k], st.api[k];
    assert Corresponds(t, a, st.types);
    PointerNames(lib, t.name);
    if !t.customHost {
      assert t.name == a.name + "" == a.name;
      assert Pointers(lib, st.api)[k].name == LoaderPointer(lib, t.name);
      AssignmentAt(lib, st, k);
    }
  }

  // ----- the digest leads from the guest thunk to its unpacker -----

  predicate IsIdentifier(s: string) {
    s != "" && forall c | c in s :: 'a' <= c <= 'z' || 'A' <= c <= 'Z' || '0' <= c <= '9' || c == '_'
  }

  function Messages(lib: string, st: State): set<string> {
    (set i | 0 <= i < |st.thunks| :: Message(lib, st.thunks[i].name))
    + (set i | 0 <= i < |st.types| :: Message(lib, CallbackEntry(st.types[i])))
  }

  /** The digests of the messages of one library do not collide. */
  ghost predicate Digests(sha: Sha, lib: string, st: State) {
    && (forall m | m in Messages(lib, st) :: |sha(m)| == 32)
    && (forall m, n | m in Messages(lib, st) && n in Messages(lib, st) && sha(m) == sha(n) :: m == n)
  }

  /** Thunks are named by identifiers and callbacks by function types. */
  predicate NamedProperly(st: State) {
    NamedByIdentifiers(st) && forall i | 0 <= i < |st.types| :: st.types[i].Fn?
  }

  predicate NamedByIdentifiers(st: State) {
    forall i | 0 <= i < |st.thunks| :: IsIdentifier(st.thunks[i].name)
  }

  lemma TextContains(ts: seq<Token>, k: nat)
    requires k < |ts| && ts[k] == TLParen
    ensures '(' in Text(ts)
  {
    if k == 0 {
      assert Text(ts)[0] == '(';
    } else {
      TextContains(ts[1..], k - 1);
      var i :| 0 <= i < |Text(ts[1..])| && Text(ts[1..])[i] == '(';
      assert Text(ts)[|TokenText(ts[0])| + i] == '(';
    }
  }

  lemma {:induction false} ToDeclHasParen(t: CType, d: Declarator)
    requires t.Fn? || TLParen in DToks(d, SP)
    ensures TLParen in DToks(ToDecl(t, d).d, SP)
    decreases t
  {
    match t
    case Named(_, _) =>
    case Ptr(c, p) => ToDeclHasParen(p, DPtr(c, d));
    case Fn(r, ps, v) => ToDeclHasParen(r, DFn(d, ToDecls(ps), v));
  }

  lemma SignatureHasParen(t: CType)
    requires t.Fn?
    ensures '(' in Text(Signature(t))
  {
    ToDeclHasParen(t, DName(None));
    var ts := Signature(t);
    assert TLParen in ts;
    var k :| 0 <= k < |ts| && ts[k] == TLParen;
    TextContains(ts, k);
  }

  lemma EntryHasParen(t: CType)
    requires '(' in Text(Signature(t))
    ensures '(' in CallbackEntry(t)
  {
    var i :| 0 <= i < |Text(Signature(t))| && Text(Signature(t))[i] == '(';
    assert CallbackEntry(t)[|"fexcallback_"| + i] == '(';
  }

  /** The message of a callback is never that of a thunk. */
  lemma CallbackMessagesDiffer(lib: string, t: CType, n: string)
    requires t.Fn? && IsIdentifier(n)
    ensures Message(lib, CallbackEntry(t)) != Message(lib, n)
  {
    SignatureHasParen(t);
    EntryHasParen(t);
    PrefixedNamesDiffer(lib + ":", CallbackEntry(t), n);
  }

  /** The last export with a digest decides what it leads to. */
  lemma {:induction false} LoadedLast(exports: seq<Export>, k: nat, digest: seq<byte>, table: map<seq<byte>, string>)
    requires k < |exports| && ParseLiteral(exports[k].literal) == Some(digest)
    requires forall j | k < j < |exports| :: ParseLiteral(exports[j].literal) != Some(digest)
    ensures digest in LoadExports(exports, table) && LoadExports(exports, table)[digest] == exports[k].target
    decreases |exports|
  {
    var table' := match ParseLiteral(exports[0].literal)
                  case None => table
                  case Some(d) => table[d := exports[0].target];
    if k > 0 {
      LoadedLast(exports[1..], k - 1, digest, table');
    } else {
      NotReloaded(exports[1..], digest, table');
    }
  }

  lemma {:induction false} NotReloaded(exports: seq<Export>, digest: seq<byte>, table: map<seq<byte>, string>)
    requires forall j | 0 <= j < |exports| :: ParseLiteral(exports[j].literal) != Some(digest)
    requires digest in table
    ensures digest in LoadExports(exports, table) && LoadExports(exports, table)[digest] == table[digest]
    decreases |exports|
  {
    if exports != [] {
      var table' := match ParseLiteral(exports[0].literal)
                    case None => table
                    case Some(d) => table[d := exports[0].target];
      NotReloaded(exports[1..], digest, table');
    }
  }

  /** No export behind that of thunk `k` has its digest. */
  lemma LaterDigestsDiffer(lib: string, sha: Sha, st: State, k: nat, j: nat)
    requires UniqueNames(st) && NamedProperly(st) && Digests(sha, lib, st) && k < |st.thunks|
    requires k < j < |Exports(lib, sha, st.thunks, st.types)|
    ensures ParseLiteral(Exports(lib, sha, st.thunks, st.types)[j].literal)
            != Some(sha(Message(lib, st.thunks[k].name)))
  {
    hide HostDigest, ParseLiteral, Message, UnpackName, CallbackTarget, CallbackEntry, Signature;
    var m := Message(lib, st.thunks[k].name);
    assert m in Messages(lib, st);
    if j < |st.thunks| {
      var n := st.thunks[j].name;
      assert Exports(lib, sha, st.thunks, st.types)[j] == ThunkExport(lib, sha, st.thunks[j]);
      assert Message(lib, n) in Messages(lib, st);
      LibraryNamesDiffer(lib, st.thunks[k].name, n);
      HostDigestParses(sha(Message(lib, n)));
    } else {
      var t := st.types[j - |st.thunks|];
      assert Exports(lib, sha, st.thunks, st.types)[j] == CallbackExport(lib, sha, t);
      assert Message(lib, CallbackEntry(t)) in Messages(lib, st);
      CallbackMessagesDiffer(lib, t, st.thunks[k].name);
      HostDigestParses(sha(Message(lib, CallbackEntry(t))));
    }
  }

  lemma ThunkDigestLoaded(lib: string, sha: Sha, st: State, k: nat, table: map<seq<byte>, string>)
    requires UniqueNames(st) && NamedProperly(st) && Digests(sha, lib, st) && k < |st.thunks|
    ensures var loaded := LoadExports(Exports(lib, sha, st.thunks, st.types), table);
            var digest := sha(Message(lib, st.thunks[k].name));
            digest in loaded && loaded[digest] == UnpackName(lib, st.thunks[k].name)
  {
    hide HostDigest, ParseLiteral, LoadExports, Message, UnpackName, CallbackTarget, CallbackEntry, Signature;
    var exports := Exports(lib, sha, st.thunks, st.types);
    var digest := sha(Message(lib, st.thunks[k].name));
    HostDigestParses(digest);
    assert exports[k] == ThunkExport(lib, sha, st.thunks[k]);
    forall j | k < j < |exports|
      ensures ParseLiteral(exports[j].literal) != Some(digest)
    {
      LaterDigestsDiffer(lib, sha, st, k, j);
    }
    LoadedLast(exports, k, digest, table);
  }
}
