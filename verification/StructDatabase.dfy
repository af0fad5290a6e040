/** What every traversal keeps, and the comparisons of the recorded layouts. */
module StructDatabase {
  import opened Options
  import opened StructTraversal

  /** Layouts are filed under their names. */
  predicate FiledByName(db: Database) {
    && (forall k | k in db.structs :: db.structs[k].name == k)
    && (forall k | k in db.unions :: db.unions[k].name == k)
    && (forall k | k in db.variables :: db.variables[k].name == k)
  }

  /** Nothing recorded is lost, and a parse error is not forgotten. */
  predicate Extends(db: Database, db': Database) {
    && db.structs.Keys <= db'.structs.Keys && db.unions.Keys <= db'.unions.Keys
       && db.variables.Keys <= db'.variables.Keys
    && db.fields <= db'.fields
    && (db'.parsed ==> db.parsed)
    && (FiledByName(db) ==> FiledByName(db'))
  }

  lemma {:induction false} StructExtends(db: Database, c: Cursor, override: string)
    ensures Extends(db, RecordStruct(db, c, override))
    ensures NameOr(c.typeSpelling, override) in RecordStruct(db, c, override).structs
    decreases c, 2
  {
    ElementsExtend(db, Layout(NameOr(c.typeSpelling, override), c.size, [], [], false), c, 0);
  }

  lemma {:induction false} UnionExtends(db: Database, c: Cursor, override: string)
    ensures Extends(db, RecordUnion(db, c, override))
    decreases c, 2
  {
    var name := NameOr(c.spelling, override);
    var empty := Layout(name, c.size, [], [], false);
    ElementsExtend(db.(unions := db.unions[name := empty]), empty, c, 0);
  }

  lemma {:induction false} ElementsExtend(db: Database, layout: Layout, c: Cursor, i: nat)
    requires i <= |c.children|
    ensures Extends(db, RecordElements(db, layout, c, i).0)
    ensures RecordElements(db, layout, c, i).1.name == layout.name
    ensures layout.members <= RecordElements(db, layout, c, i).1.members
    decreases c, 1, |c.children| - i
  {
    if i < |c.children| {
      var (db1, layout1) := RecordElement(db, layout, c.children[i]);
      ElementExtends(db, layout, c.children[i]);
      ElementsExtend(db1, layout1, c, i + 1);
    }
  }

  lemma {:induction false} ElementExtends(db: Database, layout: Layout, child: Cursor)
    ensures Extends(db, RecordElement(db, layout, child).0)
    ensures RecordElement(db, layout, child).1.name == layout.name
    ensures layout.members <= RecordElement(db, layout, child).1.members
    decreases child, 3
  {
    match child.kind
    case AnnotateAttr =>
    case FieldDecl =>
    case StructDecl => StructExtends(AddField(db, FieldOf(child)), child, "");
    case UnionDecl => ElementsExtend(db, layout, child, 0);
    case TypedefDecl => TypedefExtends(db, child);
    case _ => CursorExtends(db, child, 0);
  }

  lemma {:induction false} VariableElementsExtend(db: Database, v: Variable, children: seq<Cursor>)
    ensures Extends(db, RecordVariableElements(db, v, children).0)
    ensures RecordVariableElements(db, v, children).1.name == v.name
    decreases |children|
  {
    if children != [] {
      var (db1, v1) :=
        if children[0].kind != AnnotateAttr then (db, v)
        else match Annotated(children[0].spelling, "ioctl-alias-", 2)
          case AliasTo(a) => (db, v.(aliases := v.aliases + [a]))
          case UnknownAlias => (db.(parsed := false), v)
          case FexMatch => (db, v.(expectMatch := true))
          case Ignored => (db, v);
      VariableElementsExtend(db1, v1, children[1..]);
    }
  }

  lemma {:induction false} TypedefExtends(db: Database, c: Cursor)
    ensures Extends(db, RecordTypedef(db, c))
    decreases c, 2
  {
    if c.typedefName != "" {
      if c.record {
        TypedefChildrenExtend(db, c, 0);
        CursorExtends(RecordTypedefChildren(db, c, 0), c, 0);
      } else {
        VariableElementsExtend(db, Variable(c.typedefName, c.size, [], false), c.children);
      }
    }
  }

  lemma {:induction false} TypedefChildrenExtend(db: Database, c: Cursor, i: nat)
    requires i <= |c.children|
    ensures Extends(db, RecordTypedefChildren(db, c, i))
    decreases c, 1, |c.children| - i
  {
    if i < |c.children| {
      var child := c.children[i];
      match child.kind {
        case StructDecl => StructExtends(db, child, c.typedefName);
        case TypedefDecl => TypedefExtends(db, child);
        case _ =>
      }
      var db1 := match child.kind
                 case StructDecl => RecordStruct(db, child, c.typedefName)
                 case TypedefDecl => RecordTypedef(db, child)
                 case _ => db;
      TypedefChildrenExtend(db1, c, i + 1);
    }
  }

  lemma {:induction false} CursorExtends(db: Database, c: Cursor, i: nat)
    requires i <= |c.children|
    ensures Extends(db, RecordCursor(db, c, i))
    decreases c, 1, |c.children| - i
  {
    if i < |c.children| {
      ChildExtends(db, c.children[i]);
      CursorExtends(RecordChild(db, c.children[i]), c, i + 1);
    }
  }

  lemma {:induction false} ChildExtends(db: Database, child: Cursor)
    ensures Extends(db, RecordChild(db, child))
    decreases child, 3
  {
    match child.kind
    case FieldDecl =>
    case TypeRef =>
    case UnionDecl => UnionExtends(db, child, "");
    case StructDecl => StructExtends(db, child, "");
    case TypedefDecl => TypedefExtends(db, child);
    case VarDecl => VariableElementsExtend(db, Variable(child.spelling, child.size, [], false), child.children);
    case _ => CursorExtends(db, child, 0);
  }

  // ----- which structs are recorded -----

  predicate IsRecordKind(k: Kind) { k == StructDecl || k == UnionDecl }

  /** The traversal goes into `child`, found in a record or elsewhere. */
  predicate Entered(child: Cursor, inRecord: bool) {
    match child.kind
    case FieldDecl => false
    case AnnotateAttr => !inRecord
    case TypeRef => inRecord
    case VarDecl => inRecord
    case TypedefDecl => child.record && child.typedefName != ""
    case _ => true
  }

  /**
   Child `i` is a struct with this name, or one is declared inside it. A typedef lends its name to an unnamed
   struct.
   */
  predicate DeclaredAt(c: Cursor, i: nat, inRecord: bool, name: string)
    requires i < |c.children|
    decreases c, 0
  {
    var child := c.children[i];
    || (child.kind == StructDecl && child.typeSpelling == name)
    || (child.kind == StructDecl && c.kind == TypedefDecl && child.typeSpelling == "" && c.typedefName == name)
    || (Entered(child, inRecord) && DeclaredFrom(child, 0, IsRecordKind(child.kind), name))
  }

  predicate DeclaredFrom(c: Cursor, i: nat, inRecord: bool, name: string)
    decreases c, 1
  {
    exists j | i <= j < |c.children| :: DeclaredAt(c, j, inRecord, name)
  }

  lemma DeclaredStep(c: Cursor, i: nat, inRecord: bool, name: string)
    requires i < |c.children|
    ensures DeclaredFrom(c, i, inRecord, name)
            <==> DeclaredAt(c, i, inRecord, name) || DeclaredFrom(c, i + 1, inRecord, name)
  {
  }

  lemma {:induction false} StructNames(db: Database, c: Cursor, override: string, name: string)
    requires c.kind == StructDecl
    ensures name in RecordStruct(db, c, override).structs
            <==> name in db.structs || name == NameOr(c.typeSpelling, override) || DeclaredFrom(c, 0, true, name)
    decreases c, 2
  {
    ElementNames(db, Layout(NameOr(c.typeSpelling, override), c.size, [], [], false), c, 0, name);
  }

  lemma {:induction false} ElementNames(db: Database, layout: Layout, c: Cursor, i: nat, name: string)
    requires c.kind != TypedefDecl && i <= |c.children|
    ensures name in RecordElements(db, layout, c, i).0.structs <==> name in db.structs || DeclaredFrom(c, i, true, name)
    decreases c, 1, |c.children| - i
  {
    hide Annotated;
    if i < |c.children| {
      var child := c.children[i];
      var (db1, layout1) := RecordElement(db, layout, child);
      DeclaredStep(c, i, true, name);
      ElementNames(db1, layout1, c, i + 1, name);
      match child.kind {
        case AnnotateAttr =>
        case FieldDecl =>
        case StructDecl => StructNames(AddField(db, FieldOf(child)), child, "", name);
        case UnionDecl => ElementNames(db, layout, child, 0, name);
        case TypedefDecl => TypedefNames(db, child, name);
        case _ => CursorNames(db, child, 0, name);
      }
    }
  }

  lemma {:induction false} CursorNames(db: Database, c: Cursor, i: nat, name: string)
    requires c.kind != TypedefDecl && !IsRecordKind(c.kind) && i <= |c.children|
    ensures name in RecordCursor(db, c, i).structs <==> name in db.structs || DeclaredFrom(c, i, false, name)
    decreases c, 1, |c.children| - i
  {
    if i < |c.children| {
      ChildNames(db, c, i, name);
      DeclaredStep(c, i, false, name);
      CursorNames(RecordChild(db, c.children[i]), c, i + 1, name);
    }
  }

  /** A child that is not in a record; the name a typedef lends is not looked at here. */
  lemma {:induction false} ChildNames(db: Database, c: Cursor, i: nat, name: string)
    requires i < |c.children|
    ensures var child := c.children[i];
            name in RecordChild(db, child).structs
            <==> name in db.structs || (child.kind == StructDecl && child.typeSpelling == name)
                 || (Entered(child, false) && DeclaredFrom(child, 0, IsRecordKind(child.kind), name))
    decreases c, 0
  {
    hide Annotated, DeclaredFrom;
    var child := c.children[i];
    match child.kind
    case FieldDecl =>
    case TypeRef =>
    case UnionDecl =>
      var empty := Layout(child.spelling, child.size, [], [], false);
      ElementNames(db.(unions := db.unions[child.spelling := empty]), empty, child, 0, name);
    case StructDecl => StructNames(db, child, "", name);
    case TypedefDecl => TypedefNames(db, child, name);
    case VarDecl => VariableNames(db, Variable(child.spelling, child.size, [], false), child.children);
    case _ => CursorNames(db, child, 0, name);
  }

  lemma {:induction false} VariableNames(db: Database, v: Variable, children: seq<Cursor>)
    ensures RecordVariableElements(db, v, children).0.structs == db.structs
    decreases |children|
  {
    if children != [] {
      var (db1, v1) :=
        if children[0].kind != AnnotateAttr then (db, v)
        else match Annotated(children[0].spelling, "ioctl-alias-", 2)
          case AliasTo(a) => (db, v.(aliases := v.aliases + [a]))
          case UnknownAlias => (db.(parsed := false), v)
          case FexMatch => (db, v.(expectMatch := true))
          case Ignored => (db, v);
      VariableNames(db1, v1, children[1..]);
    }
  }

  lemma {:induction false} TypedefNames(db: Database, c: Cursor, name: string)
    requires c.kind == TypedefDecl
    ensures name in RecordTypedef(db, c).structs
            <==> name in db.structs || (Entered(c, false) && DeclaredFrom(c, 0, false, name))
    decreases c, 2
  {
    if c.typedefName != "" {
      if c.record {
        TypedefChildNames(db, c, 0, name);
        TypedefCursorNames(RecordTypedefChildren(db, c, 0), c, 0, name);
      } else {
        VariableNames(db, Variable(c.typedefName, c.size, [], false), c.children);
      }
    }
  }

  /** The second visit of a typedef's own cursor. */
  lemma {:induction false} TypedefCursorNames(db: Database, c: Cursor, i: nat, name: string)
    requires c.kind == TypedefDecl && c.typedefName != "" && i <= |c.children|
    requires forall j | 0 <= j < |c.children| && c.children[j].kind == StructDecl && c.children[j].typeSpelling == "" ::
               c.typedefName in db.structs
    ensures name in RecordCursor(db, c, i).structs <==> name in db.structs || DeclaredFrom(c, i, false, name)
    decreases c, 1, |c.children| - i
  {
    if i < |c.children| {
      ChildNames(db, c, i, name);
      DeclaredStep(c, i, false, name);
      var db1 := RecordChild(db, c.children[i]);
      ChildExtends(db, c.children[i]);
      TypedefCursorNames(db1, c, i + 1, name);
    }
  }

  /** The first visit records structs under the typedef's name too. */
  lemma {:induction false} TypedefChildNames(db: Database, c: Cursor, i: nat, name: string)
    requires c.kind == TypedefDecl && c.typedefName != "" && i <= |c.children|
    ensures var db' := RecordTypedefChildren(db, c, i);
            && (name in db.structs ==> name in db'.structs)
            && (name in db'.structs ==> name in db.structs || DeclaredFrom(c, i, false, name))
            && (forall j | i <= j < |c.children| && c.children[j].kind == StructDecl
                  && c.children[j].typeSpelling == "" ::
                  c.typedefName in db'.structs)
    decreases c, 1, |c.children| - i
  {
    if i < |c.children| {
      var child := c.children[i];
      DeclaredStep(c, i, false, name);
      match child.kind {
        case StructDecl => StructNames(db, child, c.typedefName, name); StructExtends(db, child, c.typedefName);
        case TypedefDecl => TypedefNames(db, child, name);
        case _ =>
      }
      var db1 := match child.kind
                 case StructDecl => RecordStruct(db, child, c.typedefName)
                 case TypedefDecl => RecordTypedef(db, child)
                 case _ => db;
      TypedefChildNames(db1, c, i + 1, name);
      TypedefChildrenExtend(db1, c, i + 1);
    }
  }

  /**
   Exactly the declared structs are recorded: at any depth, inside records, namespaces and typedefs, each under
   its name.
   */
  lemma TranslationUnitRecorded(c: Cursor, name: string)
    requires c.kind == TranslationUnit
    ensures name in RecordCursor(EMPTY, c, 0).structs <==> DeclaredFrom(c, 0, false, name)
    ensures name in RecordCursor(EMPTY, c, 0).structs ==> RecordCursor(EMPTY, c, 0).structs[name].name == name
  {
    CursorNames(EMPTY, c, 0, name);
    CursorExtends(EMPTY, c, 0);
  }

  // ----- comparing layouts -----

  predicate SameField(f: Field, g: Field) { f.size == g.size && f.offset == g.offset && f.align == g.align }

  /** Same size, and the same members by position; names do not matter. */
  predicate SameLayout(a: Layout, b: Layout) {
    && a.size == b.size
    && |a.members| == |b.members|
    && forall i | 0 <= i < |a.members| :: SameField(a.members[i], b.members[i])
  }

  method CompareStructs(a: Layout, b: Layout) returns (same: bool)
    ensures same <==> SameLayout(a, b)
  {
    var hadWarning, hadError := false, false;
    if a.size != b.size {
      hadWarning := true;
    }
    if |a.members| != |b.members| {
      hadError := true;
    } else {
      for i := 0 to |a.members|
        invariant hadWarning || hadError
                  <==> a.size != b.size || exists j | 0 <= j < i :: !SameField(a.members[j], b.members[j])
      {
        if a.members[i].size != b.members[i].size { hadError := true; }
        if a.members[i].offset != b.members[i].offset { hadError := true; }
        if a.members[i].align != b.members[i].align { hadWarning := true; }
      }
    }
    return !(hadWarning || hadError);
  }

  type Databases = AliasKind -> Database

  predicate StructAliasOk(s: Layout, a: Alias, dbs: Databases) {
    a.name in dbs(a.kind).structs && SameLayout(s, dbs(a.kind).structs[a.name])
  }

  predicate VariableAliasOk(v: Variable, a: Alias, dbs: Databases) {
    a.name in dbs(a.kind).variables && v.size == dbs(a.kind).variables[a.name].size
  }

  predicate AliasesOk(db: Database, dbs: Databases) {
    && (forall k | k in db.structs && k != "" :: forall i | 0 <= i < |db.structs[k].aliases| ::
          StructAliasOk(db.structs[k], db.structs[k].aliases[i], dbs))
    && (forall k | k in db.variables && k != "" :: forall i | 0 <= i < |db.variables[k].aliases| ::
          VariableAliasOk(db.variables[k], db.variables[k].aliases[i], dbs))
  }

  method CompareStructAliases(s: Layout, dbs: Databases) returns (passed: bool)
    ensures passed <==> forall i | 0 <= i < |s.aliases| :: StructAliasOk(s, s.aliases[i], dbs)
  {
    passed := true;
    for i := 0 to |s.aliases|
      invariant passed <==> forall j | 0 <= j < i :: StructAliasOk(s, s.aliases[j], dbs)
    {
      var a := s.aliases[i];
      if a.name !in dbs(a.kind).structs {
        passed := false;
      } else {
        var same := CompareStructs(s, dbs(a.kind).structs[a.name]);
        passed := passed && same;
      }
    }
  }

  method CompareVariableAliases(v: Variable, dbs: Databases) returns (passed: bool)
    ensures passed <==> forall i | 0 <= i < |v.aliases| :: VariableAliasOk(v, v.aliases[i], dbs)
  {
    passed := true;
    for i := 0 to |v.aliases|
      invariant passed <==> forall j | 0 <= j < i :: VariableAliasOk(v, v.aliases[j], dbs)
    {
      var a := v.aliases[i];
      if a.name !in dbs(a.kind).variables || v.size != dbs(a.kind).variables[a.name].size {
        passed := false;
      }
    }
  }

  /** `CompareAliases`; the dictionaries are visited in some order. */
  method CompareAliases(db: Database, dbs: Databases) returns (passed: bool)
    ensures passed <==> AliasesOk(db, dbs)
  {
    passed := true;
    var keys := db.structs.Keys;
    while keys != {}
      invariant keys <= db.structs.Keys
      invariant passed <==> forall k | k in db.structs && k !in keys && k != "" ::
                  forall i | 0 <= i < |db.structs[k].aliases| ::
                      StructAliasOk(db.structs[k], db.structs[k].aliases[i], dbs)
      decreases keys
    {
      var key :| key in keys;
      keys := keys - {key};
      if key != "" {
        var ok := CompareStructAliases(db.structs[key], dbs);
        passed := passed && ok;
      }
    }
    ghost var structsOk := passed;
    keys := db.variables.Keys;
    while keys != {}
      invariant keys <= db.variables.Keys
      invariant passed <==> structsOk && forall k | k in db.variables && k !in keys && k != "" ::
                  forall i | 0 <= i < |db.variables[k].aliases| ::
                      VariableAliasOk(db.variables[k], db.variables[k].aliases[i], dbs)
      decreases keys
    {
      var key :| key in keys;
      keys := keys - {key};
      if key != "" {
        var ok := CompareVariableAliases(db.variables[key], dbs);
        passed := passed && ok;
      }
    }
  }

  predicate CrossArchOk(db: Database, other: Database) {
    forall k | k in db.structs && k != "" && db.structs[k].expectMatch ::
      db.structs[k].name in other.structs && SameLayout(db.structs[k], other.structs[db.structs[k].name])
  }

  method CompareCrossArch(db: Database, other: Database) returns (passed: bool)
    ensures passed <==> CrossArchOk(db, other)
  {
    passed := true;
    var keys := db.structs.Keys;
    while keys != {}
      invariant keys <= db.structs.Keys
      invariant passed <==> forall k | k in db.structs && k !in keys && k != "" && db.structs[k].expectMatch ::
                  db.structs[k].name in other.structs && SameLayout(db.structs[k], other.structs[db.structs[k].name])
      decreases keys
    {
      var key :| key in keys;
      keys := keys - {key};
      if key != "" && db.structs[key].expectMatch {
        if db.structs[key].name !in other.structs {
          passed := false;
        } else {
          var same := CompareStructs(db.structs[key], other.structs[db.structs[key].name]);
          passed := passed && same;
        }
      }
    }
  }

  // ----- what a passed comparison is worth -----

  /** The bytes of recorded member `i`; offsets are in bits. */
  function MemberBytes(bytes: seq<int>, s: Layout, i: nat): Option<seq<int>>
    requires i < |s.members|
  {
    var f := s.members[i];
    if 0 <= f.offset && 0 <= f.size && f.offset / 8 + f.size <= |bytes|
        then Some(bytes[f.offset / 8..f.offset / 8 + f.size]) else None
  }

  lemma SameLayoutEquivalence(a: Layout, b: Layout, c: Layout)
    ensures SameLayout(a, a)
    ensures SameLayout(a, b) ==> SameLayout(b, a)
    ensures SameLayout(a, b) && SameLayout(b, c) ==> SameLayout(a, c)
  {
    if SameLayout(a, b) && SameLayout(b, c) {
      forall i | 0 <= i < |a.members|
        ensures SameField(a.members[i], c.members[i])
      {
        assert SameField(a.members[i], b.members[i]) && SameField(b.members[i], c.members[i]);
      }
    }
  }

  /**
   When the aliases of a struct pass, all structs it is aliased to read alike, member by member, from the same
   bytes.
   */
  lemma AliasesReadAlike(db: Database, dbs: Databases, k: string, i: nat, j: nat, m: nat, bytes: seq<int>)
    requires AliasesOk(db, dbs) && k in db.structs && k != "" && i < |db.structs[k].aliases|
             && j < |db.structs[k].aliases|
    requires m < |db.structs[k].members|
    ensures var a, b := db.structs[k].aliases[i], db.structs[k].aliases[j];
            && a.name in dbs(a.kind).structs && b.name in dbs(b.kind).structs
            && var s, t := dbs(a.kind).structs[a.name], dbs(b.kind).structs[b.name];
            && SameLayout(s, t) && m < |s.members|
            && MemberBytes(bytes, s, m) == MemberBytes(bytes, t, m) == MemberBytes(bytes, db.structs[k], m)
  {
    var a, b := db.structs[k].aliases[i], db.structs[k].aliases[j];
    assert StructAliasOk(db.structs[k], a, dbs) && StructAliasOk(db.structs[k], b, dbs);
    var s, t := dbs(a.kind).structs[a.name], dbs(b.kind).structs[b.name];
    SameLayoutEquivalence(db.structs[k], s, t);
    SameLayoutEquivalence(s, db.structs[k], t);
    assert SameField(db.structs[k].members[m], s.members[m]) && SameField(db.structs[k].members[m], t.members[m]);
  }
}
