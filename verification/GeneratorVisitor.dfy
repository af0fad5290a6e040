/** The visitor as the program runs it: an object whose fields the visit methods extend. */
module GeneratorVisitor {
  import opened Options
  import opened CTypes
  import opened Generator

  /** `GetAnnotations`, as its two loops. */
  method ReadAnnotations(bases: seq<string>, children: seq<Child>) returns (r: Result<Annotations>)
    ensures r == GetAnnotations(bases, children)
  {
    var a := NO_ANNOTATIONS;
    var i := 0;
    while i < |bases|
      invariant i <= |bases|
      invariant AnnotateAll(NO_ANNOTATIONS, bases) == AnnotateAll(a, bases[i..])
    {
      match Annotate(a, bases[i]) {
        case Err => return Err;
        case Ok(b) => a := b;
      }
      assert bases[i..][1..] == bases[i + 1..];
      i := i + 1;
    }
    ghost var fromBases := a;
    i := 0;
    while i < |children|
      invariant i <= |children|
      invariant AnnotateChildren(fromBases, children) == AnnotateChildren(a, children[i..])
    {
      match AnnotateChild(a, children[i]) {
        case Err => return Err;
        case Ok(b) => a := b;
      }
      assert children[i..][1..] == children[i + 1..];
      i := i + 1;
    }
    r := Ok(a);
  }

  /** `GetNamespaceAnnotations`, as its two loops. */
  method ReadNamespaceAnnotations(hasDefinition: bool, bases: seq<string>, fields: seq<NamespaceField>)
    returns (r: Result<NamespaceAnnotations>)
    ensures r == GetNamespaceAnnotations(hasDefinition, bases, fields)
  {
    if !hasDefinition {
      return Ok(NO_NAMESPACE_ANNOTATIONS);
    }
    var a := NO_NAMESPACE_ANNOTATIONS;
    var i := 0;
    while i < |bases|
      invariant i <= |bases|
      invariant NamespaceBases(NO_NAMESPACE_ANNOTATIONS, bases) == NamespaceBases(a, bases[i..])
    {
      match NamespaceBase(a, bases[i]) {
        case Err => return Err;
        case Ok(b) => a := b;
      }
      assert bases[i..][1..] == bases[i + 1..];
      i := i + 1;
    }
    ghost var fromBases := a;
    i := 0;
    while i < |fields|
      invariant i <= |fields|
      invariant NamespaceMembers(fromBases, fields) == NamespaceMembers(a, fields[i..])
    {
      match NamespaceMember(a, fields[i]) {
        case Err => return Err;
        case Ok(b) => a := b;
      }
      assert fields[i..][1..] == fields[i + 1..];
      i := i + 1;
    }
    r := Ok(a);
  }

  class Visitor {
    var thunks: seq<Thunk>
    var api: seq<Api>
    var types: seq<CType>
    var namespaces: seq<Namespace>
    var version: Option<nat>

    /** The recorded state; whether an error was reported is the result of the last visit. */
    ghost function Recorded(failed: bool): State
      reads this
    {
      State(thunks, api, types, namespaces, version, failed)
    }

    constructor ()
      ensures Recorded(false) == INITIAL
    {
      thunks, api, types, namespaces, version := [], [], [], [], None;
    }

    method InsertFunctionType(t: CType)
      modifies this`types
      ensures types == InsertType(old(types), t)
    {
      if t !in types { types := types + [t]; }
    }

    method VisitClassTemplateDecl(v: Visit) returns (ok: bool)
      requires v.ClassTemplate?
      modifies this
      ensures Recorded(!ok) == Step(old(Recorded(false)), v)
    {
      if v.name != "fex_gen_config" {
        return true;
      }
      var r := ReadNamespaceAnnotations(v.hasDefinition, v.bases, v.fields);
      if r.Err? {
        return false;
      }
      var a := r.value;
      namespaces := namespaces + [Namespace(NamespaceName(v.ns), if a.loader.Some? then a.loader.value else "",
                                            a.symtable, a.indirect)];
      if a.version != None {
        if v.ns.Some? {
          return false;
        }
        version := a.version;
      }
      return true;
    }

    /** The loop over the parameters of a function. */
    method ScanFunction(a: Annotations, params: seq<CType>) returns (callbacks: map<nat, Callback>, ok: bool)
      modifies this`types
      ensures Scan(callbacks, types, !ok) == ScanParams(Scan(map[], old(types), false), a, 0, params)
    {
      callbacks, ok := map[], true;
      var i := 0;
      while i < |params|
        invariant i <= |params|
        invariant ok
        invariant ScanParams(Scan(map[], old(types), false), a, 0, params)
                  == ScanParams(Scan(callbacks, types, false), a, i, params)
      {
        ghost var before := Scan(callbacks, types, false);
        if IsFunctionPointer(params[i]) {
          var cb := Callback(Callee(params[i]), SpelledCallee(params[i]), a.strategy == Stub, a.strategy == Guest);
          if cb.isGuest && !a.customHost {
            ok := false;
            assert ScanParam(before, a, i, params[i]) == before.(failed := true);
            return;
          }
          if i !in callbacks { callbacks := callbacks[i := cb]; }
          if !cb.isStub && !cb.isGuest { InsertFunctionType(Callee(params[i])); }
          if |callbacks| != 1 || (cb.callee.variadic && !cb.isStub) {
            ok := false;
            assert ScanParam(before, a, i, params[i]) == Scan(callbacks, types, true);
            return;
          }
        }
        assert ScanParam(before, a, i, params[i]) == Scan(callbacks, types, false);
        i := i + 1;
      }
    }

    method VisitClassTemplateSpecializationDecl(v: Visit) returns (ok: bool)
      requires !v.ClassTemplate? && NamespaceRecorded(Recorded(false), v)
      modifies this
      ensures Recorded(!ok) == Step(old(Recorded(false)), v)
    {
      if v.TypeSpecialization? {
        InsertFunctionType(Canonical(v.ctype));
        return true;
      }
      if !v.ConfigSpecialization? {
        return true;
      }
      if v.explicitInstantiation {
        return false;
      }
      var k := NamespaceIndex(namespaces, NamespaceName(v.ns));
      var ns, fn := namespaces[k], v.fn;
      var r := ReadAnnotations(v.bases, v.children);
      if r.Err? {
        return false;
      }
      var a := r.value;
      if IsFunctionPointer(fn.ret) && !a.returnsGuestPointer {
        return false;
      }
      var callbacks, scanned := ScanFunction(a, fn.params);
      if !scanned {
        return false;
      }
      api := api + [ApiOf(fn, a, ns, k)];
      if fn.variadic && (a.vaType == None || a.customHost) {
        return false;
      }
      if ns.indirect {
        InsertFunctionType(Canonical(Fn(fn.ret, fn.params, fn.variadic)));
      }
      thunks := thunks + [ThunkOf(fn, a, callbacks)];
      return true;
    }
  }
}
