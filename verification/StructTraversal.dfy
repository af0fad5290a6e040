/**
 The struct-layout verifier's traversal of a clang cursor tree. `Record*` say what each handler records, as
 functions of the tree alone; `ArchDB` is the object whose handlers push and pop namespaces while they record.
 */
module StructTraversal {
  import opened Options
  import opened Texts

  datatype Kind =
    | AnnotateAttr | FieldDecl | StructDecl | UnionDecl | TypedefDecl | VarDecl | Namespace | TypeRef | NamespaceRef
    | TemplateRef | TranslationUnit | OtherKind

  /**
   `offset` and `align` are those of the cursor as a member of its parent; `typedefName` and `record` describe
   typedefs.
   */
  datatype Cursor = Cursor(kind: Kind, spelling: string, typeSpelling: string, size: int, offset: int, align: int,
                           typedefName: string, record: bool, children: seq<Cursor>)

  datatype AliasKind = X86_32 | X86_64 | AArch64 | Win32 | Win64

  datatype Alias = Alias(name: string, kind: AliasKind)

  datatype Field = Field(name: string, size: int, offset: int, align: int)

  datatype Layout = Layout(name: string, size: int, aliases: seq<Alias>, members: seq<Field>, expectMatch: bool)

  datatype Variable = Variable(name: string, size: int, aliases: seq<Alias>, expectMatch: bool)

  datatype Database = Database(parsed: bool, structs: map<string, Layout>, unions: map<string, Layout>,
                               variables: map<string, Variable>, fields: seq<Field>)

  const EMPTY := Database(true, map[], map[], map[], [])

  // ----- annotations -----

  function KindOf(s: string): Option<AliasKind> {
    if s == "x86_32" then Some(X86_32)
    else if s == "x86_64" then Some(X86_64)
    else if s == "aarch64" then Some(AArch64)
    else if s == "win32" then Some(Win32)
    else if s == "win64" then Some(Win64)
    else None
  }

  datatype Annotation = AliasTo(alias: Alias) | UnknownAlias | FexMatch | Ignored

  /**
   `prefix` is `alias-` for structs and `ioctl-alias-` for variables; the sections behind it name database and
   alias.
   */
  function Annotated(spelling: string, prefix: string, at: nat): Annotation {
    if prefix <= spelling then
      var sections := Split(spelling, '-');
      if |sections| <= at then UnknownAlias
      else match KindOf(sections[at])
        case None => UnknownAlias
        case Some(kind) => if at + 1 < |sections| then AliasTo(Alias(sections[at + 1], kind)) else UnknownAlias
    else if spelling == "fex-match" then FexMatch
    else Ignored
  }

  // ----- what is recorded -----

  function NameOr(name: string, override: string): string { if name == "" then override else name }

  function FieldOf(c: Cursor): Field { Field(c.spelling, c.size, c.offset, c.align) }

  function AddField(db: Database, f: Field): Database { db.(fields := db.fields + [f]) }

  function RecordStruct(db: Database, c: Cursor, override: string): Database
    decreases c, 2
  {
    var name := NameOr(c.typeSpelling, override);
    var (db1, layout) := RecordElements(db, Layout(name, c.size, [], [], false), c, 0);
    db1.(structs := db1.structs[name := layout])
  }

  function RecordUnion(db: Database, c: Cursor, override: string): Database
    decreases c, 2
  {
    var name := NameOr(c.spelling, override);
    var empty := Layout(name, c.size, [], [], false);
    var (db1, layout) := RecordElements(db.(unions := db.unions[name := empty]), empty, c, 0);
    db1.(unions := db1.unions[name := layout])
  }

  /** The children of a struct or union from `i` on; those of a union inside it are recorded in the same layout. */
  function RecordElements(db: Database, layout: Layout, c: Cursor, i: nat): (Database, Layout)
    requires i <= |c.children|
    decreases c, 1, |c.children| - i
  {
    if i == |c.children| then (db, layout)
    else
      var (db1, layout1) := RecordElement(db, layout, c.children[i]);
      RecordElements(db1, layout1, c, i + 1)
  }

  function RecordElement(db: Database, layout: Layout, child: Cursor): (Database, Layout)
    decreases child, 3
  {
    match child.kind
    case AnnotateAttr =>
      (match Annotated(child.spelling, "alias-", 1)
       case AliasTo(a) => (db, layout.(aliases := layout.aliases + [a]))
       case UnknownAlias => (db.(parsed := false), layout)
       case FexMatch => (db, layout.(expectMatch := true))
       case Ignored => (db, layout))
    case FieldDecl => (AddField(db, FieldOf(child)), layout.(members := layout.members + [FieldOf(child)]))
    case StructDecl => (RecordStruct(AddField(db, FieldOf(child)), child, ""),
        layout.(members := layout.members + [FieldOf(child)]))
    case UnionDecl => RecordElements(db, layout, child, 0)
    case TypedefDecl => (RecordTypedef(db, child), layout)
    case _ => (RecordCursor(db, child, 0), layout)
  }

  function RecordVariableElements(db: Database, v: Variable, children: seq<Cursor>): (Database, Variable)
    decreases |children|
  {
    if children == [] then (db, v)
    else
      var (db1, v1) :=
        if children[0].kind != AnnotateAttr then (db, v)
        else match Annotated(children[0].spelling, "ioctl-alias-", 2)
          case AliasTo(a) => (db, v.(aliases := v.aliases + [a]))
          case UnknownAlias => (db.(parsed := false), v)
          case FexMatch => (db, v.(expectMatch := true))
          case Ignored => (db, v);
      RecordVariableElements(db1, v1, children[1..])
  }

  function RecordVariable(db: Database, name: string, c: Cursor): Database {
    var (db1, v) := RecordVariableElements(db, Variable(name, c.size, [], false), c.children);
    db1.(variables := db1.variables[name := v])
  }

  /** A typedef of a record visits its own cursor again. */
  function RecordTypedef(db: Database, c: Cursor): Database
    decreases c, 2
  {
    if c.typedefName == "" then db
    else if c.record then RecordCursor(RecordTypedefChildren(db, c, 0), c, 0)
    else RecordVariable(db, c.typedefName, c)
  }

  function RecordTypedefChildren(db: Database, c: Cursor, i: nat): Database
    requires i <= |c.children|
    decreases c, 1, |c.children| - i
  {
    if i == |c.children| then db
    else
      var child := c.children[i];
      var db1 := match child.kind
                 case StructDecl => RecordStruct(db, child, c.typedefName)
                 case TypedefDecl => RecordTypedef(db, child)
                 case _ => db;
      RecordTypedefChildren(db1, c, i + 1)
  }

  function RecordCursor(db: Database, c: Cursor, i: nat): Database
    requires i <= |c.children|
    decreases c, 1, |c.children| - i
  {
    if i == |c.children| then db
    else RecordCursor(RecordChild(db, c.children[i]), c, i + 1)
  }

  function RecordChild(db: Database, child: Cursor): Database
    decreases child, 3
  {
    match child.kind
    case FieldDecl => db
    case TypeRef => db
    case UnionDecl => RecordUnion(db, child, "")
    case StructDecl => RecordStruct(db, child, "")
    case TypedefDecl => RecordTypedef(db, child)
    case VarDecl => RecordVariable(db, child.spelling, child)
    case _ => RecordCursor(db, child, 0)
  }
}
