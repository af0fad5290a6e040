/**
 What the emitted files do when they run: the guest packer writes its struct, the digest selects a host
 unpacker, the unpacker reads the struct, calls its callee and stores the result. Every step goes by the
 printed declarations, names and digests alone.
 */
module ThunkRuntime {
  import opened Options
  import opened CTypes
  import opened Declarators
  import opened Bytes
  import opened DigestText
  import opened StructLayout
  import opened PackedArguments
  import opened Emission

  type Value = seq<byte>

  /** A host-callable stand-in for guest function `target`; it works once it has a host packer. */
  datatype Trampoline = Trampoline(unpacker: CType, target: nat, packer: Option<CType>)

  /** A value passed to host code. */
  datatype HostValue =
    | Plain(value: Value)
    | StubPointer(name: string)
    | WrappedGuestPointer(value: Value)

  datatype Target = HostSymbol(loader: string, symbol: string) | CustomImplementation(name: string)

  datatype HostCall = HostCall(target: Target, args: seq<HostValue>)

  datatype World = World(trampolines: map<nat, Trampoline>, cache: map<(CType, nat), nat>, next: nat,
      calls: seq<HostCall>)

  /** What the host functions do; they may change the world. */
  type Host = (HostCall, World) -> (Value, World)

  datatype Machine = Machine(abi: Abi, thunks: map<seq<byte>, string>, host: Host)

  const TRAMPOLINE_SIZE := 48

  // ----- trampolines -----

  /** `AllocateHostTrampolineForGuestFunction`: null for null, else the cached or a new trampoline. */
  function Allocate(w: World, callee: CType, g: nat): (nat, World) {
    if g == 0 then (0, w)
    else if (callee, g) in w.cache then (w.cache[(callee, g)], w)
    else
      (w.next, w.(trampolines := w.trampolines[w.next := Trampoline(callee, g, None)],
                  cache := w.cache[(callee, g) := w.next], next := w.next + TRAMPOLINE_SIZE))
  }

  /** `FinalizeHostTrampolineForGuestFunction`: it dereferences its argument without a null check. */
  function Finalize(w: World, address: nat, callee: CType): Option<World> {
    if address !in w.trampolines then None
    else if w.trampolines[address].packer != None then Some(w)
    else Some(w.(trampolines := w.trampolines[address := w.trampolines[address].(packer := Some(callee))]))
  }

  ghost predicate ValidWorld(w: World) {
    && 0 < w.next
    && (forall a | a in w.trampolines :: 0 < a < w.next)
    && (forall a | a in w.trampolines :: TrampolineOk(w.trampolines[a]))
    && (forall key | key in w.cache :: Cached(w, key))
  }

  /** A trampoline's host packer and guest unpacker are made for one function type. */
  predicate TrampolineOk(t: Trampoline) {
    t.target != 0 && (t.packer.Some? ==> t.packer.value == t.unpacker)
  }

  predicate Cached(w: World, key: (CType, nat))
    requires key in w.cache
  {
    var a := w.cache[key];
    a in w.trampolines && w.trampolines[a].unpacker == key.0 && w.trampolines[a].target == key.1
  }

  // ----- declarations -----

  function MemberOf(decl: seq<Token>): Option<Member> {
    match ParseDeclaration(decl)
    case Some(Meaning(Some(n), t)) => Some(Member(n, t))
    case _ => None
  }

  function MembersOf(decls: seq<seq<Token>>): Option<seq<Member>> {
    if decls == [] then Some([])
    else match (MemberOf(decls[0]), MembersOf(decls[1..]))
      case (Some(m), Some(ms)) => Some([m] + ms)
      case _ => None
  }

  // ----- what the compilers of both sides accept -----

  /** A parameter list, where names are not needed. An ellipsis is printed with a comma before it. */
  predicate ListCompiles(params: seq<seq<Token>>, variadic: bool) {
    && (variadic ==> params != [])
    && forall i | 0 <= i < |params| :: ParseDeclaration(params[i]).Some?
  }

  predicate StubCompiles(s: StubDeclaration) {
    ListCompiles(s.params, s.variadic) && ParseDeclaration(s.ret + [TSpace, TIdent(s.name)]).Some?
  }

  predicate ArgumentCompiles(params: seq<Member>, e: GuestExpr) {
    var k := Find(params, e.name);
    && k < |params|
    && (e.AllocateTrampoline? ==> IsFunctionPointer(params[k].ctype) && UnpackCompiles(Callee(params[k].ctype)))
  }

  /** The struct is left uninitialised, so no member may be constant. */
  predicate PackerCompiles(p: Packer) {
    match (MembersOf(p.params), MembersOf(p.members))
    case (Some(params), Some(ms)) =>
      && (forall i | 0 <= i < |ms| :: !IsConst(ms[i].ctype))
      && forall i | 0 <= i < |p.writes| :: ArgumentCompiles(params, p.writes[i].value)
    case _ => false
  }

  predicate ParameterCompiles(ms: seq<Member>, e: HostExpr) {
    e.StubFunction? ||
    var k := Find(ms, e.field);
    && k < |ms|
    && (e.FinalizeTrampoline? ==> IsFunctionPointer(ms[k].ctype) && CallGuestPtrCompiles(Callee(ms[k].ctype)))
    && (e.WrapGuestPointer? ==> IsFunctionPointer(ms[k].ctype) && !Callee(ms[k].ctype).variadic)
  }

  /** The result is assigned to a member, which must not be constant. */
  predicate UnpackerCompiles(u: Unpacker) {
    match MembersOf(u.members)
    case None => false
    case Some(ms) =>
      && (u.storesRv ==> forall i | 0 <= i < |ms| && ms[i].name == "rv" :: !IsConst(ms[i].ctype))
      && forall i | 0 <= i < |u.args| :: ParameterCompiles(ms, u.args[i])
  }

  /** The entry of a callback names a function of a template instance. */
  predicate ExportCompiles(e: Export) {
    match e.instance
    case None => true
    case Some(ts) =>
      match ParseDeclaration(ts)
      case Some(Meaning(None, t)) => ForIndirectCallCompiles(t)
      case _ => false
  }

  predicate Compiles(f: Files) {
    && (forall i | 0 <= i < |f.packers| :: PackerCompiles(f.packers[i]))
    && (forall i | 0 <= i < |f.unpackers| :: UnpackerCompiles(f.unpackers[i]))
    && (forall s | s in f.stubs :: StubCompiles(s))
    && (forall i | 0 <= i < |f.aliases| :: ListCompiles(f.aliases[i].params, false))
    && (forall i | 0 <= i < |f.pointers| :: ListCompiles(f.pointers[i].params, f.pointers[i].variadic))
    && (forall i | 0 <= i < |f.exports| :: ExportCompiles(f.exports[i]))
  }

  // ----- guest -----

  /** `Broken` is code that does not compile or link, `Crashed` a fault at run time. */
  datatype Outcome<+T> = Done(value: T) | Crashed | Broken

  function WriteNamed(abi: Abi, ms: seq<Member>, mem: Memory, name: string, v: Value): Outcome<Memory>
    requires ValidAbi(abi)
  {
    var k := Find(ms, name);
    if k == |ms| || |v| != abi.size(ms[k].ctype) || Offset(abi, ms, k) + |v| > |mem| then Broken
    else Done(StructLayout.Write(mem, Offset(abi, ms, k), v))
  }

  function ReadNamed(abi: Abi, ms: seq<Member>, mem: Memory, name: string): Option<Value>
    requires ValidAbi(abi)
  {
    var k := Find(ms, name);
    if k == |ms| || Offset(abi, ms, k) + abi.size(ms[k].ctype) > |mem| then None
    else Some(Read(mem, Offset(abi, ms, k), abi.size(ms[k].ctype)))
  }

  function EvalGuest(params: seq<Member>, args: seq<Value>, e: GuestExpr, w: World): Option<(Value, World)>
    requires |args| == |params|
  {
    var p := Find(params, e.name);
    if p == |params| then None
    else match e
      case Argument(_) => Some((args[p], w))
      case AllocateTrampoline(_) =>
        if !IsFunctionPointer(params[p].ctype) then None
        else
          var (a, w') := Allocate(w, Callee(params[p].ctype), FromLE(args[p]));
          Some((LE(a, 8), w'))
  }

  function RunWrites(abi: Abi, ms: seq<Member>, params: seq<Member>, args: seq<Value>, ws: seq<FieldWrite>, i: nat,
                     mem: Memory, w: World): Outcome<(Memory, World)>
    requires ValidAbi(abi) && |args| == |params| && i <= |ws|
    decreases |ws| - i
  {
    if i == |ws| then Done((mem, w))
    else match EvalGuest(params, args, ws[i].value, w)
      case None => Broken
      case Some((v, w')) =>
        match WriteNamed(abi, ms, mem, ws[i].field, v)
        case Done(mem') => RunWrites(abi, ms, params, args, ws, i + 1, mem', w')
        case _ => Broken
  }

  // ----- host -----

  function EvalHost(abi: Abi, ms: seq<Member>, mem: Memory, stubs: set<string>, e: HostExpr,
      w: World): Outcome<(HostValue, World)>
    requires ValidAbi(abi)
  {
    if e.StubFunction? then
      if e.name in stubs then Done((StubPointer(e.name), w)) else Broken
    else match ReadNamed(abi, ms, mem, e.field)
      case None => Broken
      case Some(v) =>
        if e.ReadField? then Done((Plain(v), w))
        else if e.WrapGuestPointer? then Done((WrappedGuestPointer(v), w))
        else FinalizeValue(ms[Find(ms, e.field)].ctype, v, w)
  }

  function FinalizeValue(t: CType, v: Value, w: World): Outcome<(HostValue, World)> {
    if !IsFunctionPointer(t) then Broken
    else match Finalize(w, FromLE(v), Callee(t))
      case None => Crashed
      case Some(w') => Done((Plain(v), w'))
  }

  function EvalHostArgs(abi: Abi, ms: seq<Member>, mem: Memory, stubs: set<string>, es: seq<HostExpr>, i: nat, w: World)
    : Outcome<(seq<HostValue>, World)>
    requires ValidAbi(abi) && i <= |es|
    decreases |es| - i
  {
    if i == |es| then Done(([], w))
    else match EvalHost(abi, ms, mem, stubs, es[i], w)
      case Crashed => Crashed
      case Broken => Broken
      case Done((x, w')) =>
        match EvalHostArgs(abi, ms, mem, stubs, es, i + 1, w')
        case Crashed => Crashed
        case Broken => Broken
        case Done((xs, w'')) => Done(([x] + xs, w''))
  }

  /** The assignment the loader made last to `pointer`. */
  function LastAssignment(assignments: seq<LoaderAssignment>, pointer: string): Option<Target> {
    if assignments == [] then None
    else
      var last := assignments[|assignments| - 1];
      if last.pointer == pointer then Some(HostSymbol(last.loader, last.symbol))
      else LastAssignment(assignments[..|assignments| - 1], pointer)
  }

  /** A callee is a loaded pointer that is declared, or a function supplied by hand. */
  function Resolve(f: Files, callee: string): Option<Target> {
    if "fexfn_impl_" <= callee then Some(CustomImplementation(callee))
    else if exists i | 0 <= i < |f.pointers| :: f.pointers[i].name == callee then LastAssignment(f.assignments, callee)
    else None
  }

  function FindUnpacker(us: seq<Unpacker>, name: string): Option<Unpacker> {
    if us == [] then None else if us[0].name == name then Some(us[0]) else FindUnpacker(us[1..], name)
  }

  function FindPacker(ps: seq<Packer>, name: string): Option<Packer> {
    if ps == [] then None else if ps[0].name == name then Some(ps[0]) else FindPacker(ps[1..], name)
  }

  function FindThunk(ts: seq<GuestThunk>, symbol: string): Option<GuestThunk> {
    if ts == [] then None else if ts[0].symbol == symbol then Some(ts[0]) else FindThunk(ts[1..], symbol)
  }

  function StubNames(stubs: set<StubDeclaration>): set<string> {
    set s | s in stubs :: s.name
  }

  function RunUnpacker(f: Files, m: Machine, u: Unpacker, mem: Memory, w: World): Outcome<(Memory, World)>
    requires ValidAbi(m.abi)
  {
    match (MembersOf(u.members), Resolve(f, u.callee))
    case (Some(ms), Some(target)) =>
      (match EvalHostArgs(m.abi, ms, mem, StubNames(f.stubs), u.args, 0, w)
      case Crashed => Crashed
      case Broken => Broken
      case Done((xs, w1)) =>
        var call := HostCall(target, xs);
        var (rv, w2) := m.host(call, w1.(calls := w1.calls + [call]));
        if u.storesRv then
          match WriteNamed(m.abi, ms, mem, "rv", rv)
          case Done(mem') => Done((mem', w2))
          case _ => Broken
        else Done((mem, w2)))
    case _ => Broken
  }

  /** The thunk instruction: look the digest up and run what it names on the struct. */
  function Dispatch(f: Files, m: Machine, symbol: string, mem: Memory, w: World): Outcome<(Memory, World)>
    requires ValidAbi(m.abi)
  {
    match FindThunk(f.thunks, symbol)
    case None => Broken
    case Some(thunk) =>
      match ParseByteList(thunk.bytes)
      case None => Broken
      case Some(digest) =>
        if digest !in m.thunks then Broken
        else match FindUnpacker(f.unpackers, m.thunks[digest])
          case None => Broken
          case Some(u) => RunUnpacker(f, m, u, mem, w)
  }

  /** A call of guest function `name`; `stack` is the memory its struct happens to be placed in. */
  function CallPacker(f: Files, m: Machine, name: string, args: seq<Value>, stack: Memory,
      w: World): Outcome<(Option<Value>, World)>
    requires ValidAbi(m.abi)
  {
    if !Compiles(f) then Broken
    else match FindPacker(f.packers, name)
    case None => Broken
    case Some(p) => RunPacker(f, m, p, args, stack, w)
  }

  function RunPacker(f: Files, m: Machine, p: Packer, args: seq<Value>, stack: Memory,
      w: World): Outcome<(Option<Value>, World)>
    requires ValidAbi(m.abi)
  {
    match (MembersOf(p.params), MembersOf(p.members))
    case (Some(params), Some(ms)) =>
      if |args| != |params| || |stack| != StructSize(m.abi, ms) then Broken
      else (match RunWrites(m.abi, ms, params, args, p.writes, 0, stack, w)
        case Crashed => Crashed
        case Broken => Broken
        case Done((mem, w1)) =>
          match Dispatch(f, m, p.thunk, mem, w1)
          case Crashed => Crashed
          case Broken => Broken
          case Done((mem', w2)) =>
            if !p.returnsRv then Done((None, w2))
            else match ReadNamed(m.abi, ms, mem', "rv")
              case None => Broken
              case Some(v) => Done((Some(v), w2)))
    case _ => Broken
  }

  function FindAlias(aliases: seq<PublicAlias>, name: string): Option<PublicAlias> {
    if aliases == [] then None else if aliases[0].name == name then Some(aliases[0]) else FindAlias(aliases[1..], name)
  }

  /** A call of public guest function `name`. */
  function CallPublic(f: Files, m: Machine, name: string, args: seq<Value>, stack: Memory,
      w: World): Outcome<(Option<Value>, World)>
    requires ValidAbi(m.abi)
  {
    match FindAlias(f.aliases, name)
    case None => Broken
    case Some(a) => CallPacker(f, m, a.target, args, stack, w)
  }

  // ----- loading -----

  /** `LoadLib`: the exports are entered one after the other, later entries replacing earlier ones. */
  function LoadExports(exports: seq<Export>, table: map<seq<byte>, string>): map<seq<byte>, string> {
    if exports == [] then table
    else
      var table' := match ParseLiteral(exports[0].literal)
                    case None => table
                    case Some(digest) => table[digest := exports[0].target];
      LoadExports(exports[1..], table')
  }
}
