/** Which layout is recorded for a name that is declared more than once: that of the declaration visited last. */
module StructDeclarations {
  import opened Options
  import opened StructTraversal
  import opened StructDatabase
  import opened RecordedLayouts

  // ----- the layout of one declaration -----

  /** The children of a record from `i` on, entered in `layout`; nothing else is looked at. */
  function LayoutFrom(layout: Layout, c: Cursor, i: nat): Layout
    requires i <= |c.children|
    decreases c, 1, |c.children| - i
  {
    if i == |c.children| then layout else LayoutFrom(LayoutWith(layout, c.children[i]), c, i + 1)
  }

  function LayoutWith(layout: Layout, child: Cursor): Layout
    decreases child, 2
  {
    match child.kind
    case AnnotateAttr =>
      (match Annotated(child.spelling, "alias-", 1)
       case AliasTo(a) => layout.(aliases := layout.aliases + [a])
       case UnknownAlias => layout
       case FexMatch => layout.(expectMatch := true)
       case Ignored => layout)
    case FieldDecl => layout.(members := layout.members + [FieldOf(child)])
    case StructDecl => layout.(members := layout.members + [FieldOf(child)])
    case UnionDecl => LayoutFrom(layout, child, 0)
    case _ => layout
  }

  function LayoutOf(c: Cursor, name: string): Layout {
    LayoutFrom(Layout(name, c.size, [], [], false), c, 0)
  }

  lemma {:induction false} LayoutIsLocal(db: Database, layout: Layout, c: Cursor, i: nat)
    requires i <= |c.children|
    ensures RecordElements(db, layout, c, i).1 == LayoutFrom(layout, c, i)
    decreases c, 1, |c.children| - i
  {
    hide Annotated;
    if i < |c.children| {
      var child := c.children[i];
      if child.kind == UnionDecl { LayoutIsLocal(db, layout, child, 0); }
      var (db1, layout1) := RecordElement(db, layout, child);
      LayoutIsLocal(db1, layout1, c, i + 1);
    }
  }

  // ----- the declarations in the order in which they are recorded -----

  /** A struct and the name it is recorded under. */
  datatype Declaration = Declaration(cursor: Cursor, name: string)

  function StructTrace(c: Cursor, override: string): seq<Declaration>
    decreases c, 2
  {
    ElementTrace(c, 0) + [Declaration(c, NameOr(c.typeSpelling, override))]
  }

  function ElementTrace(c: Cursor, i: nat): seq<Declaration>
    requires i <= |c.children|
    decreases c, 1, |c.children| - i
  {
    if i == |c.children| then []
    else
      var child := c.children[i];
      var inner := match child.kind
                   case AnnotateAttr => []
                   case FieldDecl => []
                   case StructDecl => StructTrace(child, "")
                   case UnionDecl => ElementTrace(child, 0)
                   case TypedefDecl => TypedefTrace(child)
                   case _ => CursorTrace(child, 0);
      inner + ElementTrace(c, i + 1)
  }

  function TypedefTrace(c: Cursor): seq<Declaration>
    decreases c, 2
  {
    if c.typedefName == "" || !c.record then [] else TypedefChildTrace(c, 0) + CursorTrace(c, 0)
  }

  function TypedefChildTrace(c: Cursor, i: nat): seq<Declaration>
    requires i <= |c.children|
    decreases c, 1, |c.children| - i
  {
    if i == |c.children| then []
    else
      var child := c.children[i];
      var inner := match child.kind
                   case StructDecl => StructTrace(child, c.typedefName)
                   case TypedefDecl => TypedefTrace(child)
                   case _ => [];
      inner + TypedefChildTrace(c, i + 1)
  }

  function CursorTrace(c: Cursor, i: nat): seq<Declaration>
    requires i <= |c.children|
    decreases c, 1, |c.children| - i
  {
    if i == |c.children| then [] else ChildTrace(c.children[i]) + CursorTrace(c, i + 1)
  }

  function ChildTrace(child: Cursor): seq<Declaration>
    decreases child, 3
  {
    match child.kind
    case FieldDecl => []
    case TypeRef => []
    case UnionDecl => ElementTrace(child, 0)
    case StructDecl => StructTrace(child, "")
    case TypedefDecl => TypedefTrace(child)
    case VarDecl => []
    case _ => CursorTrace(child, 0)
  }

  // ----- recording is filing them one after the other -----

  type Structs = map<string, Layout>

  function LayoutOfDeclaration(d: Declaration): Layout { LayoutOf(d.cursor, d.name) }

  function FileAll(filed: Structs, ls: seq<Declaration>): Structs
    decreases ls
  {
    if ls == [] then filed else FileAll(filed[ls[0].name := LayoutOfDeclaration(ls[0])], ls[1..])
  }

  lemma {:induction false} FileConcat(filed: Structs, a: seq<Declaration>, b: seq<Declaration>)
    ensures FileAll(filed, a + b) == FileAll(FileAll(filed, a), b)
    decreases a
  {
    if a == [] {
      assert a + b == b;
    } else {
      assert (a + b)[1..] == a[1..] + b;
      FileConcat(filed[a[0].name := LayoutOfDeclaration(a[0])], a[1..], b);
    }
  }

  lemma {:induction false} LayoutKeepsName(layout: Layout, c: Cursor, i: nat)
    requires i <= |c.children|
    ensures LayoutFrom(layout, c, i).name == layout.name
    decreases c, 1, |c.children| - i
  {
    hide Annotated;
    if i < |c.children| {
      if c.children[i].kind == UnionDecl { LayoutKeepsName(layout, c.children[i], 0); }
      LayoutKeepsName(LayoutWith(layout, c.children[i]), c, i + 1);
    }
  }

  lemma {:induction false} StructFiled(db: Database, c: Cursor, override: string)
    ensures RecordStruct(db, c, override).structs == FileAll(db.structs, StructTrace(c, override))
    decreases c, 2
  {
    var name := NameOr(c.typeSpelling, override);
    var empty := Layout(name, c.size, [], [], false);
    ElementsFiled(db, empty, c, 0);
    LayoutIsLocal(db, empty, c, 0);
    LayoutKeepsName(empty, c, 0);
    FileConcat(db.structs, ElementTrace(c, 0), [Declaration(c, name)]);
    FileOne(FileAll(db.structs, ElementTrace(c, 0)), Declaration(c, name));
  }

  lemma FileOne(filed: Structs, d: Declaration)
    ensures FileAll(filed, [d]) == filed[d.name := LayoutOfDeclaration(d)]
  {
    assert [d][1..] == [];
  }

  lemma {:induction false} ElementsFiled(db: Database, layout: Layout, c: Cursor, i: nat)
    requires i <= |c.children|
    ensures RecordElements(db, layout, c, i).0.structs == FileAll(db.structs, ElementTrace(c, i))
    decreases c, 1, |c.children| - i
  {
    hide Annotated, FileAll;
    if i == |c.children| {
      FileNone(db.structs);
    } else {
      var child := c.children[i];
      var (db1, layout1) := RecordElement(db, layout, child);
      ElementsFiled(db1, layout1, c, i + 1);
      FileNone(db.structs);
      match child.kind {
        case AnnotateAttr => assert [] + ElementTrace(c, i + 1) == ElementTrace(c, i + 1);
        case FieldDecl => assert [] + ElementTrace(c, i + 1) == ElementTrace(c, i + 1);
        case StructDecl =>
          StructFiled(AddField(db, FieldOf(child)), child, "");
          FileConcat(db.structs, StructTrace(child, ""), ElementTrace(c, i + 1));
        case UnionDecl =>
          ElementsFiled(db, layout, child, 0);
          FileConcat(db.structs, ElementTrace(child, 0), ElementTrace(c, i + 1));
        case TypedefDecl =>
          TypedefFiled(db, child);
          FileConcat(db.structs, TypedefTrace(child), ElementTrace(c, i + 1));
        case _ =>
          CursorFiled(db, child, 0);
          FileConcat(db.structs, CursorTrace(child, 0), ElementTrace(c, i + 1));
      }
    }
  }

  lemma FileNone(filed: Structs)
    ensures FileAll(filed, []) == filed
  {
  }

  lemma {:induction false} TypedefFiled(db: Database, c: Cursor)
    ensures RecordTypedef(db, c).structs == FileAll(db.structs, TypedefTrace(c))
    decreases c, 2
  {
    hide FileAll;
    FileNone(db.structs);
    if c.typedefName != "" {
      if c.record {
        TypedefChildrenFiled(db, c, 0);
        CursorFiled(RecordTypedefChildren(db, c, 0), c, 0);
        FileConcat(db.structs, TypedefChildTrace(c, 0), CursorTrace(c, 0));
      } else {
        VariableNames(db, Variable(c.typedefName, c.size, [], false), c.children);
      }
    }
  }

  lemma {:induction false} TypedefChildrenFiled(db: Database, c: Cursor, i: nat)
    requires i <= |c.children|
    ensures RecordTypedefChildren(db, c, i).structs == FileAll(db.structs, TypedefChildTrace(c, i))
    decreases c, 1, |c.children| - i
  {
    hide FileAll;
    FileNone(db.structs);
    if i < |c.children| {
      var child := c.children[i];
      var db1 := match child.kind
                 case StructDecl => RecordStruct(db, child, c.typedefName)
                 case TypedefDecl => RecordTypedef(db, child)
                 case _ => db;
      TypedefChildrenFiled(db1, c, i + 1);
      match child.kind {
        case StructDecl =>
          StructFiled(db, child, c.typedefName);
          FileConcat(db.structs, StructTrace(child, c.typedefName), TypedefChildTrace(c, i + 1));
        case TypedefDecl =>
          TypedefFiled(db, child);
          FileConcat(db.structs, TypedefTrace(child), TypedefChildTrace(c, i + 1));
        case _ => assert [] + TypedefChildTrace(c, i + 1) == TypedefChildTrace(c, i + 1);
      }
    }
  }

  lemma {:induction false} CursorFiled(db: Database, c: Cursor, i: nat)
    requires i <= |c.children|
    ensures RecordCursor(db, c, i).structs == FileAll(db.structs, CursorTrace(c, i))
    decreases c, 1, |c.children| - i
  {
    hide FileAll;
    FileNone(db.structs);
    if i < |c.children| {
      ChildFiled(db, c.children[i]);
      CursorFiled(RecordChild(db, c.children[i]), c, i + 1);
      FileConcat(db.structs, ChildTrace(c.children[i]), CursorTrace(c, i + 1));
    }
  }

  lemma {:induction false} ChildFiled(db: Database, child: Cursor)
    ensures RecordChild(db, child).structs == FileAll(db.structs, ChildTrace(child))
    decreases child, 3
  {
    hide FileAll;
    FileNone(db.structs);
    match child.kind
    case FieldDecl =>
    case TypeRef =>
    case UnionDecl =>
      var empty := Layout(child.spelling, child.size, [], [], false);
      ElementsFiled(db.(unions := db.unions[child.spelling := empty]), empty, child, 0);
    case StructDecl => StructFiled(db, child, "");
    case TypedefDecl => TypedefFiled(db, child);
    case VarDecl => VariableNames(db, Variable(child.spelling, child.size, [], false), child.children);
    case _ => CursorFiled(db, child, 0);
  }

  // ----- the last one stays -----

  function LastNamed(ls: seq<Declaration>, name: string): Option<Declaration> {
    if ls == [] then None
    else if ls[|ls| - 1].name == name then Some(ls[|ls| - 1])
    else LastNamed(ls[..|ls| - 1], name)
  }

  lemma {:induction false} LastIsFiled(filed: Structs, ls: seq<Declaration>, name: string)
    requires name !in filed
    ensures name in FileAll(filed, ls) <==> LastNamed(ls, name).Some?
    ensures name in FileAll(filed, ls) ==> FileAll(filed, ls)[name] == LayoutOfDeclaration(LastNamed(ls, name).value)
  {
    if ls != [] {
      var n := |ls| - 1;
      LastIsFiled(filed, ls[..n], name);
      assert ls == ls[..n] + [ls[n]];
      FileConcat(filed, ls[..n], [ls[n]]);
      FileOne(FileAll(filed, ls[..n]), ls[n]);
    }
  }

  lemma LayoutDescribed(c: Cursor, name: string)
    ensures LayoutOf(c, name).name == name && DescribesRecord(LayoutOf(c, name), c)
  {
    hide LayoutFrom, DescribesRecord, RecordElements;
    LayoutIsLocal(EMPTY, Layout(name, c.size, [], [], false), c, 0);
    RecordDescribed(EMPTY, c, name);
  }

  /**
   The traversal of a translation unit keeps, for every name, size, members and aliases of the declaration
   visited last.
   */
  lemma LastDeclarationStays(c: Cursor, name: string)
    ensures var structs, last := RecordCursor(EMPTY, c, 0).structs, LastNamed(CursorTrace(c, 0), name);
            && (name in structs <==> last.Some?)
            && (name in structs ==> structs[name].name == name && DescribesRecord(structs[name], last.value.cursor))
  {
    hide CursorTrace, RecordCursor, DescribesRecord, LayoutOf;
    CursorFiled(EMPTY, c, 0);
    var ls := CursorTrace(c, 0);
    LastIsFiled(map[], ls, name);
    if LastNamed(ls, name).Some? {
      LastHasName(ls, name);
      LayoutDescribed(LastNamed(ls, name).value.cursor, name);
    }
  }

  lemma {:induction false} LastHasName(ls: seq<Declaration>, name: string)
    requires LastNamed(ls, name).Some?
    ensures LastNamed(ls, name).value.name == name
  {
    if ls[|ls| - 1].name != name { LastHasName(ls[..|ls| - 1], name); }
  }

  lemma {:induction false} LastSplit(a: seq<Declaration>, b: seq<Declaration>, name: string)
    ensures LastNamed(a + b, name) == if LastNamed(b, name).Some? then LastNamed(b, name) else LastNamed(a, name)
  {
    if b == [] {
      assert a + b == a;
    } else {
      var n := |b| - 1;
      assert (a + b)[|a + b| - 1] == b[n] && (a + b)[..|a + b| - 1] == a + b[..n];
      LastSplit(a, b[..n], name);
    }
  }

  /**
   The layout of a declaration, say of a definition, is the one that is kept if and only if no declaration of its
   name is visited behind it, or the last of them has the same layout.
   */
  lemma DefinitionStaysExactly(c: Cursor, i: nat)
    requires i < |CursorTrace(c, 0)|
    ensures var ls, structs := CursorTrace(c, 0), RecordCursor(EMPTY, c, 0).structs;
            var later := LastNamed(ls[i + 1..], ls[i].name);
            && ls[i].name in structs
            && (structs[ls[i].name] == LayoutOfDeclaration(ls[i])
                <==> later == None || LayoutOfDeclaration(later.value) == LayoutOfDeclaration(ls[i]))
  {
    hide CursorTrace, RecordCursor, LayoutOfDeclaration;
    var ls := CursorTrace(c, 0);
    CursorFiled(EMPTY, c, 0);
    LastIsFiled(map[], ls, ls[i].name);
    assert ls == ls[..i + 1] + ls[i + 1..];
    LastSplit(ls[..i + 1], ls[i + 1..], ls[i].name);
    assert ls[..i + 1][|ls[..i + 1]| - 1] == ls[i];
  }

  /** An instance: `struct name;` behind the definition, and its members are gone. */
  lemma ForwardDeclarationErases(name: string, size: int, field: Cursor)
    requires field.kind == FieldDecl
    ensures var definition := Cursor(StructDecl, name, name, size, 0, 0, "", true, [field]);
            var forward := Cursor(StructDecl, name, name, size, 0, 0, "", true, []);
            var unit := Cursor(TranslationUnit, "", "", 0, 0, 0, "", false, [definition, forward]);
            var structs := RecordCursor(EMPTY, unit, 0).structs;
            && LayoutOf(definition, name).members == [Field(field.spelling, field.size, field.offset, field.align)]
            && name in structs && structs[name].members == []
  {
    var definition := Cursor(StructDecl, name, name, size, 0, 0, "", true, [field]);
    var forward := Cursor(StructDecl, name, name, size, 0, 0, "", true, []);
    var unit := Cursor(TranslationUnit, "", "", 0, 0, 0, "", false, [definition, forward]);
    assert LayoutWith(Layout(name, size, [], [], false), field).members == [] + [FieldOf(field)];
    var empty := Layout(name, size, [], [], false);
    assert LayoutFrom(LayoutWith(empty, field), definition, 1) == LayoutWith(empty, field);
    assert LayoutFrom(empty, definition, 0) == LayoutWith(empty, field);
    var db := RecordChild(EMPTY, definition);
    assert RecordElements(db, empty, forward, 0) == (db, empty);
    assert RecordChild(db, forward) == RecordStruct(db, forward, "");
    var db2 := RecordChild(db, forward);
    assert db2.structs[name] == empty;
    assert RecordCursor(db2, unit, 2) == db2;
    assert RecordCursor(db, unit, 1) == db2;
    assert RecordCursor(EMPTY, unit, 0) == db2;
  }
}
