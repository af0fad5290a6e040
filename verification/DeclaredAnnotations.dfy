/** What the annotations of a declaration mean, said of the names of its bases and members. */
module DeclaredAnnotations {
  import opened Options
  import opened CTypes
  import opened Generator

  /** `x` is among the names, and no `y` follows the last `x`. */
  predicate NamedLast(names: seq<string>, x: string, y: string) {
    exists i | 0 <= i < |names| :: names[i] == x && forall j | i < j < |names| :: names[j] != y
  }

  lemma NamedLastCons(names: seq<string>, x: string, y: string)
    requires names != []
    ensures NamedLast(names, x, y) <==> NamedLast(names[1..], x, y) || (names[0] == x && y !in names[1..])
  {
    var rest := names[1..];
    if NamedLast(names, x, y) {
      var i :| 0 <= i < |names| && names[i] == x && forall j | i < j < |names| :: names[j] != y;
      if i > 0 {
        assert rest[i - 1] == x && forall j | i - 1 < j < |rest| :: rest[j] == names[j + 1];
      } else {
        assert forall j | 0 <= j < |rest| :: rest[j] == names[j + 1];
      }
    }
    if NamedLast(rest, x, y) {
      var i :| 0 <= i < |rest| && rest[i] == x && forall j | i < j < |rest| :: rest[j] != y;
      assert names[i + 1] == x && forall j | i + 1 < j < |names| :: names[j] == rest[j - 1];
    }
    if names[0] == x && y !in rest {
      assert forall j | 0 < j < |names| :: names[j] == rest[j - 1];
    }
  }

  // ----- functions -----

  predicate KnownBase(b: string) {
    || b == "fexgen::returns_guest_pointer" || b == "fexgen::custom_host_impl" || b == "fexgen::callback_stub"
    || b == "fexgen::callback_guest" || b == "fexgen::custom_guest_entrypoint"
  }

  predicate KnownBases(bases: seq<string>) {
    forall i | 0 <= i < |bases| :: KnownBase(bases[i])
  }

  /** Data members are refused, and so are type members other than the one for variadic arguments. */
  predicate AllowedChildren(children: seq<Child>) {
    forall i | 0 <= i < |children| ::
      !children[i].Field? && (children[i].TypeAlias? ==> children[i].name == "uniform_va_type")
  }

  /** The last type member stands for `t`. */
  predicate VariadicArguments(children: seq<Child>, t: CType) {
    exists i | 0 <= i < |children| ::
      children[i].TypeAlias? && children[i].underlying == t && forall j | i < j < |children| :: !children[j].TypeAlias?
  }

  predicate HasVariadicArguments(children: seq<Child>) {
    exists i | 0 <= i < |children| :: children[i].TypeAlias?
  }

  predicate StubCallbacks(bases: seq<string>) { NamedLast(bases, "fexgen::callback_stub", "fexgen::callback_guest") }
  predicate GuestCallbacks(bases: seq<string>) { NamedLast(bases, "fexgen::callback_guest", "fexgen::callback_stub") }

  lemma {:induction false} BasesMean(a: Annotations, bases: seq<string>)
    ensures var r := AnnotateAll(a, bases);
            && (r.Ok? <==> KnownBases(bases))
            && (r.Ok? ==>
                  && (r.value.customHost <==> a.customHost || "fexgen::custom_host_impl" in bases)
                  && (r.value.customGuest <==> a.customGuest || "fexgen::custom_guest_entrypoint" in bases)
                  && (r.value.returnsGuestPointer
                      <==> a.returnsGuestPointer || "fexgen::returns_guest_pointer" in bases)
                  && r.value.vaType == a.vaType)
    decreases |bases|
  {
    if bases != [] {
      var b := bases[0];
      assert KnownBases(bases) <==> KnownBase(b) && KnownBases(bases[1..]) by {
        assert forall i | 0 < i < |bases| :: bases[i] == bases[1..][i - 1];
      }
      assert bases == [b] + bases[1..];
      if KnownBase(b) { BasesMean(Annotate(a, b).value, bases[1..]); }
    }
  }

  lemma {:induction false} StrategyMeans(a: Annotations, bases: seq<string>)
    requires KnownBases(bases)
    ensures var r := AnnotateAll(a, bases);
            && r.Ok?
            && (r.value.strategy == Stub
                <==> StubCallbacks(bases) || (a.strategy == Stub && "fexgen::callback_guest" !in bases))
            && (r.value.strategy == Guest
                <==> GuestCallbacks(bases) || (a.strategy == Guest && "fexgen::callback_stub" !in bases))
    decreases |bases|
  {
    if bases != [] {
      var b, stub, guest := bases[0], "fexgen::callback_stub", "fexgen::callback_guest";
      assert KnownBase(b);
      assert stub[10] == 'l' && |stub| == 21 && |guest| == 22;
      assert KnownBases(bases[1..]) by { assert forall i | 0 < i < |bases| :: bases[i] == bases[1..][i - 1]; }
      StrategyMeans(Annotate(a, b).value, bases[1..]);
      NamedLastCons(bases, stub, guest);
      NamedLastCons(bases, guest, stub);
      assert bases == [b] + bases[1..];
    }
  }

  lemma {:induction false} ChildrenMean(a: Annotations, children: seq<Child>)
    ensures var r := AnnotateChildren(a, children);
            && (r.Ok? <==> AllowedChildren(children))
            && (r.Ok? ==> r.value.(vaType := a.vaType) == a)
            && (r.Ok? ==> (r.value.vaType == None <==> a.vaType == None && !HasVariadicArguments(children)))
            && (r.Ok? && HasVariadicArguments(children) ==>
                  r.value.vaType.Some? && VariadicArguments(children, r.value.vaType.value))
            && (r.Ok? && !HasVariadicArguments(children) ==> r.value.vaType == a.vaType)
    decreases |children|
  {
    if children != [] {
      var c, rest := children[0], children[1..];
      assert forall i | 0 < i < |children| :: children[i] == rest[i - 1];
      assert AllowedChildren(children) <==> AllowedChildren([c]) && AllowedChildren(rest) by {
        if AllowedChildren([c]) { assert [c][0] == c; }
        if AllowedChildren(rest) && AllowedChildren([c]) {
          forall i | 0 <= i < |children|
            ensures !children[i].Field? && (children[i].TypeAlias? ==> children[i].name == "uniform_va_type")
          {
            if i > 0 { assert children[i] == rest[i - 1]; } else { assert children[i] == [c][0]; }
          }
        }
        if AllowedChildren(children) {
          assert forall i | 0 <= i < |rest| :: rest[i] == children[i + 1];
          assert [c][0] == children[0];
        }
      }
      assert AllowedChildren([c]) <==> AnnotateChild(a, c).Ok? by { assert [c][0] == c; }
      assert HasVariadicArguments(children) <==> c.TypeAlias? || HasVariadicArguments(rest) by {
        if HasVariadicArguments(rest) {
          var i :| 0 <= i < |rest| && rest[i].TypeAlias?;
          assert children[i + 1].TypeAlias?;
        }
      }
      if AllowedChildren([c]) {
        ChildrenMean(AnnotateChild(a, c).value, rest);
        var r := AnnotateChildren(a, children);
        if r.Ok? && HasVariadicArguments(rest) {
          LaterArguments(children, r.value.vaType.value);
        } else if r.Ok? && c.TypeAlias? {
          assert children[0].underlying == c.underlying;
        }
      }
    }
  }

  lemma LaterArguments(children: seq<Child>, t: CType)
    requires children != [] && VariadicArguments(children[1..], t)
    ensures VariadicArguments(children, t)
  {
    var rest := children[1..];
    var i :| 0 <= i < |rest| && rest[i].TypeAlias? && rest[i].underlying == t
      && forall j | i < j < |rest| :: !rest[j].TypeAlias?;
    assert children[i + 1] == rest[i] && forall j | i + 1 < j < |children| :: children[j] == rest[j - 1];
  }

  /** The annotations of a function, read off its bases and members. */
  lemma AnnotationsExactly(bases: seq<string>, children: seq<Child>)
    ensures var r := GetAnnotations(bases, children);
            && (r.Ok? <==> KnownBases(bases) && AllowedChildren(children))
            && (r.Ok? ==>
                  && (r.value.customHost <==> "fexgen::custom_host_impl" in bases)
                  && (r.value.customGuest <==> "fexgen::custom_guest_entrypoint" in bases)
                  && (r.value.returnsGuestPointer <==> "fexgen::returns_guest_pointer" in bases)
                  && (r.value.strategy == Stub <==> StubCallbacks(bases))
                  && (r.value.strategy == Guest <==> GuestCallbacks(bases))
                  && (r.value.vaType == None <==> !HasVariadicArguments(children))
                  && (r.value.vaType.Some? ==> VariadicArguments(children, r.value.vaType.value)))
  {
    hide AnnotateAll, AnnotateChildren, KnownBases, AllowedChildren, NamedLast, VariadicArguments, HasVariadicArguments;
    BasesMean(NO_ANNOTATIONS, bases);
    if KnownBases(bases) {
      StrategyMeans(NO_ANNOTATIONS, bases);
      ChildrenMean(AnnotateAll(NO_ANNOTATIONS, bases).value, children);
    }
  }

  /** The default strategy is what is left: neither base is there. */
  lemma DefaultStrategy(bases: seq<string>)
    ensures !StubCallbacks(bases) && !GuestCallbacks(bases)
            <==> "fexgen::callback_stub" !in bases && "fexgen::callback_guest" !in bases
  {
    LastOfTwo(bases, "fexgen::callback_stub", "fexgen::callback_guest");
  }

  lemma {:induction false} LastOfTwo(names: seq<string>, x: string, y: string)
    requires x != y
    ensures NamedLast(names, x, y) || NamedLast(names, y, x) <==> x in names || y in names
    ensures !(NamedLast(names, x, y) && NamedLast(names, y, x))
  {
    if names != [] {
      NamedLastCons(names, x, y);
      NamedLastCons(names, y, x);
      LastOfTwo(names[1..], x, y);
      assert names == [names[0]] + names[1..];
      NamedIsIn(names[1..], x, y);
      NamedIsIn(names[1..], y, x);
    }
  }

  lemma NamedIsIn(names: seq<string>, x: string, y: string)
    ensures NamedLast(names, x, y) ==> x in names
  {
  }

  // ----- namespaces -----

  predicate KnownNamespaceBases(bases: seq<string>) {
    forall i | 0 <= i < |bases| ::
      bases[i] == "fexgen::generate_guest_symtable" || bases[i] == "fexgen::indirect_guest_calls"
  }

  predicate NamesLoader(f: NamespaceField) { f.name == "load_host_endpoint_via" && f.init.StringLiteral? }
  predicate NamesVersion(f: NamespaceField) { f.name == "version" && f.init.IntegerLiteral? }

  predicate AllowedField(f: NamespaceField) {
    NamesLoader(f) || NamesVersion(f) || (f.name == "load_host_endpoint_via" && f.init.NoInitializer?)
  }

  predicate AllowedFields(fields: seq<NamespaceField>) {
    forall i | 0 <= i < |fields| :: AllowedField(fields[i])
  }

  /** The last member that names a loader names this one. */
  predicate LastLoader(fields: seq<NamespaceField>, loader: string) {
    exists i | 0 <= i < |fields| ::
      && NamesLoader(fields[i]) && fields[i].init.text == loader
      && forall j | i < j < |fields| :: !NamesLoader(fields[j])
  }

  predicate LastVersion(fields: seq<NamespaceField>, version: nat) {
    exists i | 0 <= i < |fields| ::
      && NamesVersion(fields[i]) && fields[i].init.value == version
      && forall j | i < j < |fields| :: !NamesVersion(fields[j])
  }

  predicate HasLoader(fields: seq<NamespaceField>) { exists i | 0 <= i < |fields| :: NamesLoader(fields[i]) }
  predicate HasVersion(fields: seq<NamespaceField>) { exists i | 0 <= i < |fields| :: NamesVersion(fields[i]) }

  lemma {:induction false} NamespaceBasesMean(a: NamespaceAnnotations, bases: seq<string>)
    ensures var r := NamespaceBases(a, bases);
            && (r.Ok? <==> KnownNamespaceBases(bases))
            && (r.Ok? ==>
                  && (r.value.symtable <==> a.symtable || "fexgen::generate_guest_symtable" in bases)
                  && (r.value.indirect <==> a.indirect || "fexgen::indirect_guest_calls" in bases)
                  && r.value.loader == a.loader && r.value.version == a.version)
    decreases |bases|
  {
    if bases != [] {
      var b, rest := bases[0], bases[1..];
      assert forall i | 0 < i < |bases| :: bases[i] == rest[i - 1];
      assert bases == [b] + rest;
      var known := b == "fexgen::generate_guest_symtable" || b == "fexgen::indirect_guest_calls";
      assert KnownNamespaceBases(bases) <==> known && KnownNamespaceBases(rest);
      if known { NamespaceBasesMean(NamespaceBase(a, b).value, rest); }
    }
  }

  lemma {:induction false} FieldsMean(a: NamespaceAnnotations, fields: seq<NamespaceField>)
    ensures var r := NamespaceMembers(a, fields);
            && (r.Ok? <==> AllowedFields(fields))
            && (r.Ok? ==> r.value.symtable == a.symtable && r.value.indirect == a.indirect)
            && (r.Ok? ==> if HasLoader(fields) then r.value.loader.Some? && LastLoader(fields, r.value.loader.value)
                          else r.value.loader == a.loader)
            && (r.Ok? ==> if HasVersion(fields) then r.value.version.Some? && LastVersion(fields, r.value.version.value)
                          else r.value.version == a.version)
    decreases |fields|
  {
    if fields != [] {
      var f, rest := fields[0], fields[1..];
      assert forall i | 0 < i < |fields| :: fields[i] == rest[i - 1];
      assert forall i | 0 <= i < |rest| :: rest[i] == fields[i + 1];
      assert AllowedField(f) <==> NamespaceMember(a, f).Ok?;
      assert AllowedFields(fields) <==> AllowedField(f) && AllowedFields(rest);
      FieldsCons(fields);
      if AllowedField(f) {
        FieldsMean(NamespaceMember(a, f).value, rest);
      }
    }
  }

  lemma FieldsCons(fields: seq<NamespaceField>)
    requires fields != []
    ensures HasLoader(fields) <==> NamesLoader(fields[0]) || HasLoader(fields[1..])
    ensures HasVersion(fields) <==> NamesVersion(fields[0]) || HasVersion(fields[1..])
    ensures forall s :: LastLoader(fields[1..], s) ==> LastLoader(fields, s)
    ensures forall n :: LastVersion(fields[1..], n) ==> LastVersion(fields, n)
    ensures NamesLoader(fields[0]) && !HasLoader(fields[1..]) ==> LastLoader(fields, fields[0].init.text)
    ensures NamesVersion(fields[0]) && !HasVersion(fields[1..]) ==> LastVersion(fields, fields[0].init.value)
  {
    var rest := fields[1..];
    assert forall i | 0 < i < |fields| :: fields[i] == rest[i - 1];
    assert forall i | 0 <= i < |rest| :: rest[i] == fields[i + 1];
    if HasLoader(rest) { var i :| 0 <= i < |rest| && NamesLoader(rest[i]); assert NamesLoader(fields[i + 1]); }
    if HasVersion(rest) { var i :| 0 <= i < |rest| && NamesVersion(rest[i]); assert NamesVersion(fields[i + 1]); }
    forall s | LastLoader(rest, s)
      ensures LastLoader(fields, s)
    {
      var i :| 0 <= i < |rest| && NamesLoader(rest[i]) && rest[i].init.text == s
        && forall j | i < j < |rest| :: !NamesLoader(rest[j]);
      assert NamesLoader(fields[i + 1]) && fields[i + 1].init.text == s;
    }
    forall n | LastVersion(rest, n)
      ensures LastVersion(fields, n)
    {
      var i :| 0 <= i < |rest| && NamesVersion(rest[i]) && rest[i].init.value == n
        && forall j | i < j < |rest| :: !NamesVersion(rest[j]);
      assert NamesVersion(fields[i + 1]) && fields[i + 1].init.value == n;
    }
  }

  /**
   The annotations of a namespace, read off the bases and members of its template; without a definition there
   are none.
   */
  lemma NamespaceAnnotationsExactly(hasDefinition: bool, bases: seq<string>, fields: seq<NamespaceField>)
    ensures var r := GetNamespaceAnnotations(hasDefinition, bases, fields);
            && (r.Ok? <==> !hasDefinition || (KnownNamespaceBases(bases) && AllowedFields(fields)))
            && (r.Ok? ==>
                  && (r.value.symtable <==> hasDefinition && "fexgen::generate_guest_symtable" in bases)
                  && (r.value.indirect <==> hasDefinition && "fexgen::indirect_guest_calls" in bases)
                  && (if hasDefinition && HasLoader(fields)
                      then r.value.loader.Some? && LastLoader(fields, r.value.loader.value) else r.value.loader == None)
                  && (if hasDefinition && HasVersion(fields)
                      then r.value.version.Some? && LastVersion(fields, r.value.version.value)
                      else r.value.version == None))
  {
    if hasDefinition {
      hide NamespaceBases, NamespaceMembers, KnownNamespaceBases, AllowedFields, HasLoader, HasVersion, LastLoader,
        LastVersion;
      NamespaceBasesMean(NO_NAMESPACE_ANNOTATIONS, bases);
      if KnownNamespaceBases(bases) {
        FieldsMean(NamespaceBases(NO_NAMESPACE_ANNOTATIONS, bases).value, fields);
      }
    }
  }
}
