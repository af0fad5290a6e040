/** The traversal as the script runs it: an object whose handlers push and pop namespaces while they record. */
module StructHandlers {
  import opened Options
  import opened StructTraversal
  import opened AliasAnnotations
  import opened RecordedLayouts

  function Join(scope: seq<string>): string {
    if scope == [] then "" else Join(scope[..|scope| - 1]) + scope[|scope| - 1] + "::"
  }

  class ArchDB {
    var parsed: bool
    var namespaceScope: seq<string>
    var currentNamespace: string
    var structs: map<string, Layout>
    var unions: map<string, Layout>
    var variables: map<string, Variable>
    var fields: seq<Field>

    ghost function Recorded(): Database
      reads this
    {
      Database(parsed, structs, unions, variables, fields)
    }

    /** The current namespace is that of the stack. */
    ghost predicate InNamespace()
      reads this
    {
      currentNamespace == Join(namespaceScope)
    }

    constructor ()
      ensures Recorded() == EMPTY && namespaceScope == [] && InNamespace()
    {
      parsed, structs, unions, variables, fields := true, map[], map[], map[], [];
      namespaceScope, currentNamespace := [], "";
    }

    method SetNamespace()
      modifies this`currentNamespace
      ensures InNamespace()
    {
      currentNamespace := "";
      for i := 0 to |namespaceScope|
        invariant currentNamespace == Join(namespaceScope[..i])
      {
        assert namespaceScope[..i + 1][..i] == namespaceScope[..i];
        currentNamespace := currentNamespace + namespaceScope[i] + "::";
      }
      assert namespaceScope[..|namespaceScope|] == namespaceScope;
    }

    method Push(name: string)
      modifies this`namespaceScope, this`currentNamespace
      ensures namespaceScope == old(namespaceScope) + [name] && InNamespace()
    {
      namespaceScope := namespaceScope + [name];
      SetNamespace();
    }

    method Pop()
      requires namespaceScope != []
      modifies this`namespaceScope, this`currentNamespace
      ensures namespaceScope == old(namespaceScope)[..|old(namespaceScope)| - 1] && InNamespace()
    {
      namespaceScope := namespaceScope[..|namespaceScope| - 1];
      SetNamespace();
    }

    method HandleStructDeclCursor(c: Cursor, override: string)
      requires InNamespace()
      modifies this
      ensures Recorded() == RecordStruct(old(Recorded()), c, override)
      ensures var name := if c.typeSpelling == "" then override else c.typeSpelling;
              name in structs && structs[name].name == name && DescribesRecord(structs[name], c)
      ensures parsed ==> old(parsed) && NoneMisspelled(AnnotationTexts(c, 0), FOR_STRUCTS)
      ensures namespaceScope == old(namespaceScope) && InNamespace()
      decreases c, 2
    {
      var name := NameOr(c.typeSpelling, override);
      if name != "" { Push(name); }
      var layout := HandleStructElements(Layout(name, c.size, [], [], false), c);
      structs := structs[name := layout];
      DescribedFromNothing(name, layout, c);
      if name != "" { Pop(); }
    }

    method HandleUnionDeclCursor(c: Cursor, override: string)
      requires InNamespace()
      modifies this
      ensures Recorded() == RecordUnion(old(Recorded()), c, override)
      ensures var name := if c.spelling == "" then override else c.spelling;
              name in unions && unions[name].name == name && DescribesRecord(unions[name], c)
      ensures parsed ==> old(parsed) && NoneMisspelled(AnnotationTexts(c, 0), FOR_STRUCTS)
      ensures namespaceScope == old(namespaceScope) && InNamespace()
      decreases c, 2
    {
      var name := NameOr(c.spelling, override);
      if name != "" { Push(name); }
      unions := unions[name := Layout(name, c.size, [], [], false)];
      var layout := HandleStructElements(Layout(name, c.size, [], [], false), c);
      unions := unions[name := layout];
      DescribedFromNothing(name, layout, c);
      if name != "" { Pop(); }
    }

    method HandleStructElements(start: Layout, c: Cursor) returns (layout: Layout)
      requires InNamespace()
      modifies this
      ensures (Recorded(), layout) == RecordElements(old(Recorded()), start, c, 0)
      ensures Extended(start, layout, MemberCursors(c, 0), AnnotationTexts(c, 0))
      ensures parsed ==> old(parsed) && NoneMisspelled(AnnotationTexts(c, 0), FOR_STRUCTS)
      ensures namespaceScope == old(namespaceScope) && InNamespace()
      decreases c, 1
    {
      layout := start;
      for i := 0 to |c.children|
        invariant RecordElements(Recorded(), layout, c, i) == RecordElements(old(Recorded()), start, c, 0)
        invariant namespaceScope == old(namespaceScope) && InNamespace()
      {
        layout := HandleElement(layout, c.children[i]);
      }
      ElementsDescribed(old(Recorded()), start, c, 0);
      if parsed { ElementsParsed(old(Recorded()), start, c, 0); }
    }

    /** One child of a struct or union. */
    method HandleElement(start: Layout, child: Cursor) returns (layout: Layout)
      requires InNamespace()
      modifies this
      ensures (Recorded(), layout) == RecordElement(old(Recorded()), start, child)
      ensures namespaceScope == old(namespaceScope) && InNamespace()
      decreases child, 3
    {
      layout := start;
      match child.kind {
        case AnnotateAttr =>
          match Annotated(child.spelling, "alias-", 1) {
            case AliasTo(a) => layout := layout.(aliases := layout.aliases + [a]);
            case UnknownAlias => parsed := false;
            case FexMatch => layout := layout.(expectMatch := true);
            case Ignored =>
          }
        case FieldDecl =>
          layout := layout.(members := layout.members + [FieldOf(child)]);
          fields := fields + [FieldOf(child)];
        case StructDecl =>
          layout := layout.(members := layout.members + [FieldOf(child)]);
          fields := fields + [FieldOf(child)];
          HandleStructDeclCursor(child, "");
        case UnionDecl => layout := HandleStructElements(layout, child);
        case TypedefDecl => HandleTypeDefDeclCursor(child);
        case _ => HandleCursor(child);
      }
    }

    method HandleVarDeclElements(start: Variable, c: Cursor) returns (v: Variable)
      modifies this`parsed
      ensures (Recorded(), v) == RecordVariableElements(old(Recorded()), start, c.children)
    {
      v := start;
      assert c.children[0..] == c.children;
      for i := 0 to |c.children|
        invariant RecordVariableElements(Recorded(), v, c.children[i..])
            == RecordVariableElements(old(Recorded()), start, c.children)
      {
        assert c.children[i..][1..] == c.children[i + 1..];
        if c.children[i].kind == AnnotateAttr {
          match Annotated(c.children[i].spelling, "ioctl-alias-", 2) {
            case AliasTo(a) => v := v.(aliases := v.aliases + [a]);
            case UnknownAlias => parsed := false;
            case FexMatch => v := v.(expectMatch := true);
            case Ignored =>
          }
        }
      }
    }

    method HandleVarDeclCursor(name: string, c: Cursor)
      modifies this`parsed, this`variables
      ensures Recorded() == RecordVariable(old(Recorded()), name, c)
      ensures name in variables && variables[name].name == name && DescribesVariable(variables[name], c)
      ensures parsed <==> old(parsed) && NoneMisspelled(VariableTexts(c.children), FOR_VARIABLES)
    {
      var v := HandleVarDeclElements(Variable(name, c.size, [], false), c);
      variables := variables[name := v];
      WholeVariable(old(Recorded()), name, c);
      VariableDescribed(old(Recorded()), Variable(name, c.size, [], false), c.children);
    }

    method HandleTypeDefDeclCursor(c: Cursor)
      requires InNamespace()
      modifies this
      ensures Recorded() == RecordTypedef(old(Recorded()), c)
      ensures namespaceScope == old(namespaceScope) && InNamespace()
      decreases c, 2
    {
      hide RecordCursor, RecordTypedefChildren, RecordVariable, Join;
      if c.record {
        if c.typedefName != "" {
          HandleTypeDefDecl(c);
          Push(c.typedefName);
          HandleCursor(c);
          Pop();
        }
      } else if c.typedefName != "" {
        HandleVarDeclCursor(c.typedefName, c);
      }
    }

    method HandleTypeDefDecl(c: Cursor)
      requires InNamespace()
      modifies this
      ensures Recorded() == RecordTypedefChildren(old(Recorded()), c, 0)
      ensures namespaceScope == old(namespaceScope) && InNamespace()
      decreases c, 1
    {
      for i := 0 to |c.children|
        invariant RecordTypedefChildren(Recorded(), c, i) == RecordTypedefChildren(old(Recorded()), c, 0)
        invariant namespaceScope == old(namespaceScope) && InNamespace()
      {
        match c.children[i].kind {
          case StructDecl => HandleStructDeclCursor(c.children[i], c.typedefName);
          case TypedefDecl => HandleTypeDefDeclCursor(c.children[i]);
          case _ =>
        }
      }
    }

    method HandleCursor(c: Cursor)
      requires InNamespace()
      modifies this
      ensures Recorded() == RecordCursor(old(Recorded()), c, 0)
      ensures namespaceScope == old(namespaceScope) && InNamespace()
      decreases c, 1
    {
      for i := 0 to |c.children|
        invariant RecordCursor(Recorded(), c, i) == RecordCursor(old(Recorded()), c, 0)
        invariant namespaceScope == old(namespaceScope) && InNamespace()
      {
        HandleChild(c.children[i]);
      }
    }

    /** One child of a cursor. */
    method HandleChild(child: Cursor)
      requires InNamespace()
      modifies this
      ensures Recorded() == RecordChild(old(Recorded()), child)
      ensures namespaceScope == old(namespaceScope) && InNamespace()
      decreases child, 3
    {
      match child.kind {
        case FieldDecl =>
        case TypeRef =>
        case UnionDecl => HandleUnionDeclCursor(child, "");
        case StructDecl => HandleStructDeclCursor(child, "");
        case TypedefDecl => HandleTypeDefDeclCursor(child);
        case VarDecl => HandleVarDeclCursor(child.spelling, child);
        case Namespace =>
          Push(child.spelling);
          HandleCursor(child);
          Pop();
        case _ => HandleCursor(child);
      }
    }
  }
}
