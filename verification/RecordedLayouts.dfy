/** What is recorded of a struct, union or variable, in terms of its cursor. */
module RecordedLayouts {
  import opened Options
  import opened StructTraversal
  import opened AliasAnnotations
  import opened StructDatabase

  // ----- what belongs to a record -----

  /** The fields and structs among the children from `i` on, those of a union inside in its place. */
  function MemberCursors(c: Cursor, i: nat): seq<Cursor>
    requires i <= |c.children|
    decreases c, |c.children| - i
  {
    if i == |c.children| then []
    else
      var child := c.children[i];
      (match child.kind
       case FieldDecl => [child]
       case StructDecl => [child]
       case UnionDecl => MemberCursors(child, 0)
       case _ => [])
      + MemberCursors(c, i + 1)
  }

  /** The texts of the annotations, likewise. */
  function AnnotationTexts(c: Cursor, i: nat): seq<string>
    requires i <= |c.children|
    decreases c, |c.children| - i
  {
    if i == |c.children| then []
    else
      var child := c.children[i];
      (match child.kind
       case AnnotateAttr => [child.spelling]
       case UnionDecl => AnnotationTexts(child, 0)
       case _ => [])
      + AnnotationTexts(c, i + 1)
  }

  /** The texts of a variable's own annotations. */
  function VariableTexts(children: seq<Cursor>): seq<string> {
    if children == [] then []
    else (if children[0].kind == AnnotateAttr then [children[0].spelling] else []) + VariableTexts(children[1..])
  }

  // ----- records and cursors side by side -----

  predicate MembersAre(ms: seq<Field>, cs: seq<Cursor>) {
    && |ms| == |cs|
    && forall i | 0 <= i < |ms| ::
         ms[i].name == cs[i].spelling && ms[i].size == cs[i].size && ms[i].offset == cs[i].offset
             && ms[i].align == cs[i].align
  }

  /** The aliases are those that the texts spell, in order. */
  ghost predicate AliasesAre(aliases: seq<Alias>, texts: seq<string>, prefix: string)
    decreases |texts|
  {
    if texts == [] then aliases == []
    else if exists a :: SpellsAlias(texts[0], prefix, a)
    then aliases != [] && SpellsAlias(texts[0], prefix, aliases[0]) && AliasesAre(aliases[1..], texts[1..], prefix)
    else AliasesAre(aliases, texts[1..], prefix)
  }

  /** A text that looks like an alias and is none. */
  ghost predicate Misspelled(s: string, prefix: string) {
    prefix <= s && forall a :: !SpellsAlias(s, prefix, a)
  }

  ghost predicate NoneMisspelled(texts: seq<string>, prefix: string) {
    forall i | 0 <= i < |texts| :: !Misspelled(texts[i], prefix)
  }

  /** The layout has the size, members, aliases and mark of the cursor. */
  ghost predicate DescribesRecord(l: Layout, c: Cursor) {
    && l.size == c.size
    && MembersAre(l.members, MemberCursors(c, 0))
    && AliasesAre(l.aliases, AnnotationTexts(c, 0), FOR_STRUCTS)
    && (l.expectMatch <==> "fex-match" in AnnotationTexts(c, 0))
  }

  ghost predicate DescribesVariable(v: Variable, c: Cursor) {
    && v.size == c.size
    && AliasesAre(v.aliases, VariableTexts(c.children), FOR_VARIABLES)
    && (v.expectMatch <==> "fex-match" in VariableTexts(c.children))
  }

  /** `layout` is `start` with the members and annotations added. */
  ghost predicate Extended(start: Layout, layout: Layout, cs: seq<Cursor>, texts: seq<string>) {
    && layout.name == start.name && layout.size == start.size
    && start.members <= layout.members && MembersAre(layout.members[|start.members|..], cs)
    && start.aliases <= layout.aliases && AliasesAre(layout.aliases[|start.aliases|..], texts, FOR_STRUCTS)
    && (layout.expectMatch <==> start.expectMatch || "fex-match" in texts)
  }

  // ----- joining -----

  lemma MembersJoin(ms: seq<Field>, cs: seq<Cursor>, ms': seq<Field>, cs': seq<Cursor>)
    requires MembersAre(ms, cs) && MembersAre(ms', cs')
    ensures MembersAre(ms + ms', cs + cs')
  {
  }

  lemma {:induction false} AliasesJoin(a: seq<Alias>, ts: seq<string>, b: seq<Alias>, us: seq<string>, prefix: string)
    requires AliasesAre(a, ts, prefix) && AliasesAre(b, us, prefix)
    ensures AliasesAre(a + b, ts + us, prefix)
    decreases |ts|
  {
    hide SpellsAlias;
    if ts == [] {
      assert a + b == b && ts + us == us;
    } else {
      assert (ts + us)[0] == ts[0] && (ts + us)[1..] == ts[1..] + us;
      if exists x :: SpellsAlias(ts[0], prefix, x) {
        AliasesJoin(a[1..], ts[1..], b, us, prefix);
        assert (a + b)[0] == a[0] && (a + b)[1..] == a[1..] + b;
      } else {
        AliasesJoin(a, ts[1..], b, us, prefix);
      }
    }
  }

  lemma ExtendedJoin(x: Layout, y: Layout, z: Layout, cs: seq<Cursor>, ts: seq<string>, cs': seq<Cursor>,
      ts': seq<string>)
    requires Extended(x, y, cs, ts) && Extended(y, z, cs', ts')
    ensures Extended(x, z, cs + cs', ts + ts')
  {
    hide AliasesAre, MembersAre;
    var m, n := |x.members|, |x.aliases|;
    MembersJoin(y.members[m..], cs, z.members[|y.members|..], cs');
    assert z.members[m..] == y.members[m..] + z.members[|y.members|..];
    AliasesJoin(y.aliases[n..], ts, z.aliases[|y.aliases|..], ts', FOR_STRUCTS);
    assert z.aliases[n..] == y.aliases[n..] + z.aliases[|y.aliases|..];
  }

  lemma ExtendedByNothing(x: Layout)
    ensures Extended(x, x, [], [])
  {
    assert x.members[|x.members|..] == [] && x.aliases[|x.aliases|..] == [];
  }

  lemma AliasesOfOne(s: string, prefix: string, a: Alias)
    ensures SpellsAlias(s, prefix, a) ==> AliasesAre([a], [s], prefix)
    ensures (forall b :: !SpellsAlias(s, prefix, b)) ==> AliasesAre([], [s], prefix)
  {
    assert [s][1..] == [] && [a][1..] == [];
  }

  // ----- records -----

  lemma AnnotationRecorded(db: Database, layout: Layout, child: Cursor)
    requires child.kind == AnnotateAttr
    ensures var (db', layout') := RecordElement(db, layout, child);
            && Extended(layout, layout', [], [child.spelling])
            && (db'.parsed <==> db.parsed && !Misspelled(child.spelling, FOR_STRUCTS))
  {
    hide Annotated, SpellsAlias, AliasesAre;
    var s := child.spelling;
    var (db', layout') := RecordElement(db, layout, child);
    AliasesRecognised(s, FOR_STRUCTS, 1);
    assert layout'.members[|layout.members|..] == [];
    var added := layout'.aliases[|layout.aliases|..];
    match Annotated(s, FOR_STRUCTS, 1)
    case AliasTo(a) =>
      assert added == [a];
      AliasesOfOne(s, FOR_STRUCTS, a);
    case UnknownAlias =>
      assert added == [];
      AliasesOfOne(s, FOR_STRUCTS, Alias("", X86_32));
    case FexMatch =>
      assert added == [];
      AliasesOfOne(s, FOR_STRUCTS, Alias("", X86_32));
    case Ignored =>
      assert added == [];
      AliasesOfOne(s, FOR_STRUCTS, Alias("", X86_32));
  }

  lemma MemberRecorded(db: Database, layout: Layout, child: Cursor)
    requires child.kind == FieldDecl || child.kind == StructDecl
    ensures Extended(layout, RecordElement(db, layout, child).1, [child], [])
  {
    var layout' := RecordElement(db, layout, child).1;
    assert layout'.members[|layout.members|..] == [Field(child.spelling, child.size, child.offset, child.align)];
    assert layout'.aliases[|layout.aliases|..] == [];
  }

  /** The children of a record from `i` on are recorded as they are. */
  lemma {:induction false} ElementsDescribed(db: Database, layout: Layout, c: Cursor, i: nat)
    requires i <= |c.children|
    ensures Extended(layout, RecordElements(db, layout, c, i).1, MemberCursors(c, i), AnnotationTexts(c, i))
    decreases c, |c.children| - i
  {
    hide Extended;
    if i == |c.children| {
      ExtendedByNothing(layout);
    } else {
      var child := c.children[i];
      var (db1, layout1) := RecordElement(db, layout, child);
      var layout2 := RecordElements(db1, layout1, c, i + 1).1;
      ElementsDescribed(db1, layout1, c, i + 1);
      hide RecordElement;
      var cs, ts := MemberCursors(c, i + 1), AnnotationTexts(c, i + 1);
      match child.kind
      case AnnotateAttr =>
        AnnotationRecorded(db, layout, child);
        ExtendedJoin(layout, layout1, layout2, [], [child.spelling], cs, ts);
      case FieldDecl =>
        MemberRecorded(db, layout, child);
        ExtendedJoin(layout, layout1, layout2, [child], [], cs, ts);
      case StructDecl =>
        MemberRecorded(db, layout, child);
        ExtendedJoin(layout, layout1, layout2, [child], [], cs, ts);
      case UnionDecl =>
        ElementsDescribed(db, layout, child, 0);
        UnionElement(db, layout, child);
        ExtendedJoin(layout, layout1, layout2, MemberCursors(child, 0), AnnotationTexts(child, 0), cs, ts);
      case _ =>
        OtherElement(db, layout, child);
        ExtendedByNothing(layout);
        ExtendedJoin(layout, layout1, layout2, [], [], cs, ts);
    }
  }

  lemma UnionElement(db: Database, layout: Layout, child: Cursor)
    requires child.kind == UnionDecl
    ensures RecordElement(db, layout, child) == RecordElements(db, layout, child, 0)
  {
  }

  lemma OtherElement(db: Database, layout: Layout, child: Cursor)
    requires child.kind != AnnotateAttr && child.kind != FieldDecl && child.kind != StructDecl
             && child.kind != UnionDecl
    ensures RecordElement(db, layout, child).1 == layout
  {
  }

  lemma DescribedFromNothing(name: string, l: Layout, c: Cursor)
    requires Extended(Layout(name, c.size, [], [], false), l, MemberCursors(c, 0), AnnotationTexts(c, 0))
    ensures l.name == name && DescribesRecord(l, c)
  {
    assert l.members[0..] == l.members && l.aliases[0..] == l.aliases;
  }

  /** A whole record, begun with nothing but its name and size. */
  lemma RecordDescribed(db: Database, c: Cursor, name: string)
    ensures var l := RecordElements(db, Layout(name, c.size, [], [], false), c, 0).1;
            l.name == name && DescribesRecord(l, c)
  {
    hide AliasesAre, MembersAre, MemberCursors, AnnotationTexts, RecordElements;
    var start := Layout(name, c.size, [], [], false);
    ElementsDescribed(db, start, c, 0);
    DescribedFromNothing(name, RecordElements(db, start, c, 0).1, c);
  }

  /** A misspelled alias anywhere in a record is remembered. */
  lemma {:induction false} ElementsParsed(db: Database, layout: Layout, c: Cursor, i: nat)
    requires i <= |c.children| && RecordElements(db, layout, c, i).0.parsed
    ensures db.parsed && NoneMisspelled(AnnotationTexts(c, i), FOR_STRUCTS)
    decreases c, |c.children| - i
  {
    hide Misspelled;
    if i < |c.children| {
      var child := c.children[i];
      var (db1, layout1) := RecordElement(db, layout, child);
      ElementsParsed(db1, layout1, c, i + 1);
      ElementExtends(db, layout, child);
      hide RecordElements, RecordElement;
      if child.kind == AnnotateAttr {
        AnnotationRecorded(db, layout, child);
      } else if child.kind == UnionDecl {
        UnionElement(db, layout, child);
        ElementsParsed(db, layout, child, 0);
      }
    }
  }

  // ----- variables -----

  lemma {:induction false} VariableDescribed(db: Database, v: Variable, children: seq<Cursor>)
    ensures var (db', v') := RecordVariableElements(db, v, children);
            && v'.name == v.name && v'.size == v.size
            && v.aliases <= v'.aliases && AliasesAre(v'.aliases[|v.aliases|..], VariableTexts(children), FOR_VARIABLES)
            && (v'.expectMatch <==> v.expectMatch || "fex-match" in VariableTexts(children))
            && (db'.parsed <==> db.parsed && NoneMisspelled(VariableTexts(children), FOR_VARIABLES))
    decreases |children|
  {
    hide Annotated, SpellsAlias, Misspelled, AliasesAre;
    if children == [] {
      assert v.aliases[|v.aliases|..] == [];
      NoAliases();
    } else {
      var (db1, v1) := VariableStep(db, v, children[0]);
      StepTaken(db, v, children);
      VariableDescribed(db1, v1, children[1..]);
      var v2 := RecordVariableElements(db1, v1, children[1..]).1;
      if children[0].kind == AnnotateAttr {
        VariableAnnotation(db, v, children[0]);
        AliasesJoin(v1.aliases[|v.aliases|..], [children[0].spelling], v2.aliases[|v1.aliases|..],
          VariableTexts(children[1..]), FOR_VARIABLES);
        assert v2.aliases[|v.aliases|..] == v1.aliases[|v.aliases|..] + v2.aliases[|v1.aliases|..];
        MisspelledCons(children[0].spelling, VariableTexts(children[1..]));
      } else {
        assert [] + VariableTexts(children[1..]) == VariableTexts(children[1..]);
      }
    }
  }

  lemma NoAliases()
    ensures AliasesAre([], [], FOR_VARIABLES)
  {
  }

  lemma MisspelledCons(s: string, texts: seq<string>)
    ensures NoneMisspelled([s] + texts, FOR_VARIABLES)
            <==> !Misspelled(s, FOR_VARIABLES) && NoneMisspelled(texts, FOR_VARIABLES)
  {
    hide Misspelled;
    var ts := [s] + texts;
    assert ts[0] == s && forall i | 0 <= i < |texts| :: ts[i + 1] == texts[i];
    if NoneMisspelled(ts, FOR_VARIABLES) {
      forall i | 0 <= i < |texts|
        ensures !Misspelled(texts[i], FOR_VARIABLES)
      {
        assert !Misspelled(ts[i + 1], FOR_VARIABLES);
      }
    }
  }

  function VariableStep(db: Database, v: Variable, child: Cursor): (Database, Variable) {
    if child.kind != AnnotateAttr then (db, v)
    else match Annotated(child.spelling, FOR_VARIABLES, 2)
      case AliasTo(a) => (db, v.(aliases := v.aliases + [a]))
      case UnknownAlias => (db.(parsed := false), v)
      case FexMatch => (db, v.(expectMatch := true))
      case Ignored => (db, v)
  }

  lemma StepTaken(db: Database, v: Variable, children: seq<Cursor>)
    requires children != []
    ensures var (db1, v1) := VariableStep(db, v, children[0]);
            RecordVariableElements(db, v, children) == RecordVariableElements(db1, v1, children[1..])
  {
    hide Annotated;
  }

  lemma VariableAnnotation(db: Database, v: Variable, child: Cursor)
    requires child.kind == AnnotateAttr
    ensures var (db', v') := VariableStep(db, v, child);
            && v.aliases <= v'.aliases && AliasesAre(v'.aliases[|v.aliases|..], [child.spelling], FOR_VARIABLES)
            && (v'.expectMatch <==> v.expectMatch || child.spelling == "fex-match")
            && (db'.parsed <==> db.parsed && !Misspelled(child.spelling, FOR_VARIABLES))
  {
    hide Annotated, SpellsAlias, AliasesAre;
    var s := child.spelling;
    AliasesRecognised(s, FOR_VARIABLES, 2);
    var added := VariableStep(db, v, child).1.aliases[|v.aliases|..];
    match Annotated(s, FOR_VARIABLES, 2)
    case AliasTo(a) =>
      assert added == [a];
      AliasesOfOne(s, FOR_VARIABLES, a);
    case _ =>
      assert added == [];
      AliasesOfOne(s, FOR_VARIABLES, Alias("", X86_32));
  }

  lemma WholeVariable(db: Database, name: string, c: Cursor)
    ensures var v := RecordVariableElements(db, Variable(name, c.size, [], false), c.children).1;
            v.name == name && DescribesVariable(v, c)
  {
    hide AliasesAre, VariableTexts, RecordVariableElements;
    var start := Variable(name, c.size, [], false);
    VariableDescribed(db, start, c.children);
    var v := RecordVariableElements(db, start, c.children).1;
    assert v.aliases[0..] == v.aliases;
  }
}
