/**
 The thunk generator's visitor: what it records for every annotated function, as a state machine over
 the declarations it visits.
 */
module Generator {
  import opened Options
  import opened CTypes

  // ----- input: the declarations and their annotations -----

  datatype Initializer = NoInitializer | StringLiteral(text: string) | IntegerLiteral(value: nat) | OtherExpression

  datatype NamespaceField = NamespaceField(name: string, init: Initializer)

  /** A member declaration of a `fex_gen_config` specialization. */
  datatype Child = Field(name: string) | TypeAlias(name: string, underlying: CType) | OtherChild

  datatype Function = Function(name: string, ret: CType, params: seq<CType>, variadic: bool)

  datatype Visit =
    | ClassTemplate(name: string, ns: Option<string>, hasDefinition: bool, bases: seq<string>,
        fields: seq<NamespaceField>)
    | TypeSpecialization(ctype: CType)
    | ConfigSpecialization(ns: Option<string>, explicitInstantiation: bool, fn: Function, bases: seq<string>,
        children: seq<Child>)
    | OtherSpecialization

  // ----- what is recorded -----

  /** The function type of a callback, canonical and as it is written. */
  datatype Callback = Callback(callee: CType, spelled: CType, isStub: bool, isGuest: bool)

  datatype Thunk = Thunk(name: string, ret: CType, params: seq<CType>, variadic: bool, customHost: bool,
                         callbacks: map<nat, Callback>)

  datatype Api = Api(name: string, ret: CType, params: seq<CType>, loader: string, customGuest: bool, variadic: bool,
                     symtable: Option<nat>)

  datatype Namespace = Namespace(name: string, loader: string, symtable: bool, indirect: bool)

  datatype State = State(thunks: seq<Thunk>, api: seq<Api>, types: seq<CType>, namespaces: seq<Namespace>,
                         version: Option<nat>, failed: bool)

  const INITIAL := State([], [], [], [], None, false)

  // ----- annotations -----

  datatype Result<+T> = Ok(value: T) | Err

  datatype Strategy = Default | Stub | Guest

  datatype Annotations = Annotations(customHost: bool, customGuest: bool, returnsGuestPointer: bool,
                                     vaType: Option<CType>, strategy: Strategy)

  datatype NamespaceAnnotations = NamespaceAnnotations(version: Option<nat>, loader: Option<string>, symtable: bool,
                                                       indirect: bool)

  const NO_ANNOTATIONS := Annotations(false, false, false, None, Default)
  const NO_NAMESPACE_ANNOTATIONS := NamespaceAnnotations(None, None, false, false)

  function Annotate(a: Annotations, base: string): Result<Annotations> {
    if base == "fexgen::returns_guest_pointer" then Ok(a.(returnsGuestPointer := true))
    else if base == "fexgen::custom_host_impl" then Ok(a.(customHost := true))
    else if base == "fexgen::callback_stub" then Ok(a.(strategy := Stub))
    else if base == "fexgen::callback_guest" then Ok(a.(strategy := Guest))
    else if base == "fexgen::custom_guest_entrypoint" then Ok(a.(customGuest := true))
    else Err
  }

  function AnnotateChild(a: Annotations, child: Child): Result<Annotations> {
    match child
    case Field(_) => Err
    case TypeAlias(n, t) => if n == "uniform_va_type" then Ok(a.(vaType := Some(t))) else Err
    case OtherChild => Ok(a)
  }

  function AnnotateAll(a: Annotations, bases: seq<string>): Result<Annotations>
    decreases |bases|
  {
    if bases == [] then Ok(a)
    else match Annotate(a, bases[0])
      case Err => Err
      case Ok(b) => AnnotateAll(b, bases[1..])
  }

  function AnnotateChildren(a: Annotations, children: seq<Child>): Result<Annotations>
    decreases |children|
  {
    if children == [] then Ok(a)
    else match AnnotateChild(a, children[0])
      case Err => Err
      case Ok(b) => AnnotateChildren(b, children[1..])
  }

  /** `GetAnnotations`. */
  function GetAnnotations(bases: seq<string>, children: seq<Child>): Result<Annotations> {
    match AnnotateAll(NO_ANNOTATIONS, bases)
    case Err => Err
    case Ok(a) => AnnotateChildren(a, children)
  }

  function NamespaceBase(a: NamespaceAnnotations, base: string): Result<NamespaceAnnotations> {
    if base == "fexgen::generate_guest_symtable" then Ok(a.(symtable := true))
    else if base == "fexgen::indirect_guest_calls" then Ok(a.(indirect := true))
    else Err
  }

  function NamespaceMember(a: NamespaceAnnotations, f: NamespaceField): Result<NamespaceAnnotations> {
    if f.name == "load_host_endpoint_via" then
      match f.init
      case StringLiteral(s) => Ok(a.(loader := Some(s)))
      case NoInitializer => Ok(a)
      case _ => Err
    else if f.name == "version" then
      match f.init
      case IntegerLiteral(n) => Ok(a.(version := Some(n)))
      case _ => Err
    else Err
  }

  function NamespaceBases(a: NamespaceAnnotations, bases: seq<string>): Result<NamespaceAnnotations>
    decreases |bases|
  {
    if bases == [] then Ok(a)
    else match NamespaceBase(a, bases[0])
      case Err => Err
      case Ok(b) => NamespaceBases(b, bases[1..])
  }

  function NamespaceMembers(a: NamespaceAnnotations, fields: seq<NamespaceField>): Result<NamespaceAnnotations>
    decreases |fields|
  {
    if fields == [] then Ok(a)
    else match NamespaceMember(a, fields[0])
      case Err => Err
      case Ok(b) => NamespaceMembers(b, fields[1..])
  }

  /** `GetNamespaceAnnotations`. */
  function GetNamespaceAnnotations(hasDefinition: bool, bases: seq<string>, fields: seq<NamespaceField>)
    : Result<NamespaceAnnotations>
  {
    if !hasDefinition then Ok(NO_NAMESPACE_ANNOTATIONS)
    else match NamespaceBases(NO_NAMESPACE_ANNOTATIONS, bases)
      case Err => Err
      case Ok(a) => NamespaceMembers(a, fields)
  }

  // ----- the visitor's steps -----

  function InsertType(types: seq<CType>, t: CType): seq<CType> {
    if t in types then types else types + [t]
  }

  /** What the loop over a function's parameters has found so far. */
  datatype Scan = Scan(callbacks: map<nat, Callback>, types: seq<CType>, failed: bool)

  function ScanParam(s: Scan, a: Annotations, i: nat, t: CType): Scan {
    if !IsFunctionPointer(t) then s
    else
      var cb := Callback(Callee(t), SpelledCallee(t), a.strategy == Stub, a.strategy == Guest);
      if cb.isGuest && !a.customHost then s.(failed := true)
      else
        var callbacks := if i in s.callbacks then s.callbacks else s.callbacks[i := cb];
        var types := if !cb.isStub && !cb.isGuest then InsertType(s.types, Callee(t)) else s.types;
        Scan(callbacks, types, |callbacks| != 1 || (cb.callee.variadic && !cb.isStub))
  }

  /** The loop from parameter `i` on; it ends at the first error. */
  function ScanParams(s: Scan, a: Annotations, i: nat, params: seq<CType>): Scan
    requires i <= |params|
    decreases |params| - i
  {
    if s.failed || i == |params| then s
    else ScanParams(ScanParam(s, a, i, params[i]), a, i + 1, params)
  }

  /** The global namespace has the empty name. */
  function NamespaceName(ns: Option<string>): string {
    if ns.Some? then ns.value else ""
  }

  /** The position of the namespace called `name`, or the number of namespaces. */
  function NamespaceIndex(namespaces: seq<Namespace>, name: string): (k: nat)
    ensures k <= |namespaces|
    ensures k < |namespaces| ==> namespaces[k].name == name
    ensures forall j | 0 <= j < k :: namespaces[j].name != name
  {
    if namespaces == [] then 0
    else if namespaces[0].name == name then 0
    else 1 + NamespaceIndex(namespaces[1..], name)
  }

  function ApiOf(fn: Function, a: Annotations, ns: Namespace, k: nat): Api {
    Api(fn.name, fn.ret, fn.params, if ns.loader == "" then "dlsym" else ns.loader, fn.variadic || a.customGuest,
        fn.variadic, if ns.symtable then Some(k) else None)
  }

  function ThunkOf(fn: Function, a: Annotations, callbacks: map<nat, Callback>): Thunk
    requires fn.variadic ==> a.vaType.Some?
  {
    if fn.variadic then
      Thunk(fn.name + "_internal", fn.ret, fn.params + [SIZE_T, Ptr(false, a.vaType.value)], true, true, callbacks)
    else
      Thunk(fn.name, fn.ret, fn.params, false, a.customHost, callbacks)
  }

  /** `VisitClassTemplateDecl`. */
  function VisitTemplate(st: State, v: Visit): State
    requires v.ClassTemplate?
  {
    if v.name != "fex_gen_config" then st
    else match GetNamespaceAnnotations(v.hasDefinition, v.bases, v.fields)
      case Err => st.(failed := true)
      case Ok(a) =>
        var loader := if a.loader.Some? then a.loader.value else "";
        var st1 := st.(namespaces := st.namespaces + [Namespace(NamespaceName(v.ns), loader, a.symtable, a.indirect)]);
        if a.version == None then st1
        else if v.ns.Some? then st1.(failed := true)
        else st1.(version := a.version)
  }

  /** `VisitClassTemplateSpecializationDecl` on a `fex_gen_config<function>`. */
  function VisitConfig(st: State, v: Visit): State
    requires v.ConfigSpecialization? && NamespaceIndex(st.namespaces, NamespaceName(v.ns)) < |st.namespaces|
  {
    if v.explicitInstantiation then st.(failed := true)
    else
      var k := NamespaceIndex(st.namespaces, NamespaceName(v.ns));
      var ns, fn := st.namespaces[k], v.fn;
      match GetAnnotations(v.bases, v.children)
      case Err => st.(failed := true)
      case Ok(a) =>
        if IsFunctionPointer(fn.ret) && !a.returnsGuestPointer then st.(failed := true)
        else
          var scan := ScanParams(Scan(map[], st.types, false), a, 0, fn.params);
          var st1 := st.(types := scan.types);
          if scan.failed then st1.(failed := true)
          else
            var st2 := st1.(api := st1.api + [ApiOf(fn, a, ns, k)]);
            if fn.variadic && (a.vaType == None || a.customHost) then st2.(failed := true)
            else
              var st3 := if ns.indirect
                         then st2.(types := InsertType(st2.types, Canonical(Fn(fn.ret, fn.params, fn.variadic))))
                         else st2;
              st3.(thunks := st3.thunks + [ThunkOf(fn, a, scan.callbacks)])
  }

  /** C++ has the primary template precede its specializations, so their namespace has been recorded. */
  predicate NamespaceRecorded(st: State, v: Visit) {
    v.ConfigSpecialization? ==> NamespaceIndex(st.namespaces, NamespaceName(v.ns)) < |st.namespaces|
  }

  function Step(st: State, v: Visit): State
    requires NamespaceRecorded(st, v)
  {
    match v
    case ClassTemplate(_, _, _, _, _) => VisitTemplate(st, v)
    case TypeSpecialization(t) => st.(types := InsertType(st.types, Canonical(t)))
    case ConfigSpecialization(_, _, _, _, _) => VisitConfig(st, v)
    case OtherSpecialization => st
  }

  /** The traversal stops at the first reported error. */
  predicate Steps(st: State, v: Visit, st': State) {
    if st.failed then st' == st else NamespaceRecorded(st, v) && st' == Step(st, v)
  }

  /** A run: the states before, between and after the visits. */
  predicate Run(visits: seq<Visit>, states: seq<State>) {
    && |states| == |visits| + 1
    && states[0] == INITIAL
    && forall i | 0 <= i < |visits| :: Steps(states[i], visits[i], states[i + 1])
  }
}
