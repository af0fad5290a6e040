/** What the report says: categories in one piece each, and every change under its heading. */
module ChangelogReport {
  import opened Texts
  import opened Sequences
  import opened Changelog

  // ----- the order of keys -----

  /** Lexicographic order by character code. */
  predicate Less(a: string, b: string) {
    if b == "" then false
    else if a == "" then true
    else a[0] < b[0] || (a[0] == b[0] && Less(a[1..], b[1..]))
  }

  /** What lies between two texts with a common prefix has that prefix. */
  lemma {:induction false} BetweenPrefix(p: string, x: string, b: string, z: string) returns (y: string)
    requires Less(p + x, b) && Less(b, p + z)
    ensures b == p + y && Less(x, y) && Less(y, z)
  {
    if p == "" {
      y := b;
      assert p + x == x && p + z == z && p + y == y;
    } else {
      var q := p[1..];
      assert (p + x)[1..] == q + x && (p + z)[1..] == q + z;
      assert b[0] == p[0];
      y := BetweenPrefix(q, x, b[1..], z);
      assert b == [b[0]] + b[1..] && p == [p[0]] + q;
    }
  }

  lemma {:induction false} LessTransitive(a: string, b: string, c: string)
    requires Less(a, b) && Less(b, c)
    ensures Less(a, c)
  {
    if a != "" && a[0] == b[0] == c[0] { LessTransitive(a[1..], b[1..], c[1..]); }
  }

  lemma {:induction false} LessIrreflexive(a: string)
    ensures !Less(a, a)
  {
    if a != "" { LessIrreflexive(a[1..]); }
  }

  lemma {:induction false} ExtensionIsGreater(a: string, b: string)
    ensures Less(a, a + b) <==> b != ""
    ensures !Less(a + b, a)
  {
    if a == "" {
      assert a + b == b;
    } else {
      ExtensionIsGreater(a[1..], b);
      assert (a + b)[1..] == a[1..] + b;
    }
  }

  /** The category a key is printed under. */
  function Category(p: KeyParts): string {
    match p
    case Plain(c) => c
    case Tagged(c, _) => c
    case Misc => "Misc"
  }

  /** A key of the category that the report prints for all lines without one. */
  predicate Literal(p: KeyParts) { p != Misc && Category(p) == "Misc" }

  function Suffix(p: KeyParts): string { if p.Tagged? then "/" + p.tag else "" }

  lemma KeyIsCategoryAndSuffix(p: KeyParts)
    requires p != Misc
    ensures KeyText(p) == Category(p) + Suffix(p)
  {
  }

  lemma WordCharacters(w: string)
    requires IsWord(w)
    ensures forall i | 0 <= i < |w| :: IsAlnum(w[i])
  {
  }

  /** A slash sorts before letters, digits and the underscore: keys between two of a category belong to it. */
  lemma CategoryIsContiguous(p: KeyParts, q: KeyParts, r: KeyParts)
    requires ValidParts(p) && ValidParts(q) && ValidParts(r) && Category(p) == Category(r) && !(Literal(p) && r == Misc)
    requires Less(KeyText(p), KeyText(q)) && Less(KeyText(q), KeyText(r))
    ensures Category(q) == Category(p)
  {
    LessTransitive(KeyText(p), KeyText(q), KeyText(r));
    if p == Misc {
      NothingBehindMisc(r);
      LessIrreflexive(KeyText(p));
    } else {
      KeyIsCategoryAndSuffix(p);
      KeyIsCategoryAndSuffix(r);
      var y := BetweenPrefix(Category(p), Suffix(p), KeyText(q), Suffix(r));
      SuffixStartsWithSlash(q, Category(p), y);
    }
  }

  /** The underscore sorts behind the capital letters. */
  lemma NothingBehindMisc(p: KeyParts)
    requires Literal(p)
    ensures !Less(MISC, KeyText(p))
  {
    KeyIsCategoryAndSuffix(p);
    assert KeyText(p)[0] == 'M';
  }

  lemma SuffixStartsWithSlash(q: KeyParts, c: string, y: string)
    requires ValidParts(q) && IsWord(c) && KeyText(q) == c + y && (y == "" || y[0] <= '/')
    ensures Category(q) == c
  {
    var k := KeyText(q);
    WordCharacters(c);
    assert k[0] == c[0];
    assert q != Misc;
    KeyIsCategoryAndSuffix(q);
    var w := Category(q);
    WordCharacters(w);
    assert forall i | 0 <= i < |c| :: IsAlnum(k[i]) by { assert forall i | 0 <= i < |c| :: k[i] == c[i]; }
    assert forall i | 0 <= i < |w| :: IsAlnum(k[i]) by { assert forall i | 0 <= i < |w| :: k[i] == w[i]; }
    assert |c| < |k| ==> !IsAlnum(k[|c|]);
    assert |w| < |k| ==> !IsAlnum(k[|w|]);
    assert |c| == |w|;
    assert c == k[..|c|] && w == k[..|w|];
  }

  /** The untagged key of a category sorts before its tagged ones. */
  lemma PlainComesFirst(c: string, t: string)
    ensures !Less(KeyText(Tagged(c, t)), KeyText(Plain(c)))
  {
    ExtensionIsGreater(c, "/" + t);
    assert c + "/" + t == c + ("/" + t);
  }

  // ----- items in order -----

  datatype Parted = Parted(parts: KeyParts, changes: seq<string>)

  function ItemOf(x: Parted): Item { Item(KeyText(x.parts), x.changes) }

  function Items(xs: seq<Parted>): seq<Item> {
    seq(|xs|, i requires 0 <= i < |xs| => ItemOf(xs[i]))
  }

  /** What `sorted` gives: keys strictly increasing. */
  predicate SortedItems(xs: seq<Parted>) {
    && (forall i | 0 <= i < |xs| :: ValidParts(xs[i].parts))
    && (forall i, j | 0 <= i < j < |xs| :: Less(KeyText(xs[i].parts), KeyText(xs[j].parts)))
  }

  lemma DisplayedParts(p: KeyParts)
    requires ValidParts(p)
    ensures var tag := Display(KeyText(p));
            && CategoryOf(tag) == Category(p) && NamesTag(tag)
            && (p.Tagged? ==> tag == p.category + "/" + p.tag)
            && (p.Tagged? ==> Split(tag, '/') == [p.category, p.tag] && tag != CategoryOf(tag))
            && (!p.Tagged? ==> tag == Category(p))
  {
    var k := KeyText(p);
    match p
    case Misc => SplitNone("Misc", '/');
    case Plain(c) =>
      assert k[0] in c && IsAlnum(k[0]);
      NoSlash(c);
      SplitNone(c, '/');
    case Tagged(c, t) =>
      assert c[0] in c && k[0] == c[0];
      NoSlash(c);
      NoSlash(t);
      SplitAt(c, '/', t);
      SplitNone(t, '/');
      assert c + ['/'] + t == k;
      assert |k| > |c|;
  }

  lemma NoSlash(w: string)
    requires IsWord(w)
    ensures '/' !in w
  {
  }

  /** What was printed last. */
  datatype Before = Start | After(parts: KeyParts)

  function CategoryBefore(b: Before): string { if b == Start then "" else Category(b.parts) }
  function TagBefore(b: Before): string { if b == Start then "" else TagOf(b.parts) }

  function TagOf(p: KeyParts): string { if p.Tagged? then p.tag else "" }

  /** The printer's variables behind an item; behind the lines without a category its tag may be left over. */
  predicate Agrees(p: Printer, b: Before) {
    && p.category == CategoryBefore(b)
    && (b == After(Misc) || p.tag == if b.After? && b.parts.Tagged? then KeyText(b.parts) else "")
  }

  /** The items still to come sort behind the last one. */
  predicate Precedes(b: Before, xs: seq<Parted>) {
    b.After? ==> ValidParts(b.parts) && forall i | 0 <= i < |xs| :: Less(KeyText(b.parts), KeyText(xs[i].parts))
  }

  predicate NewCategory(b: Before, p: KeyParts) { CategoryBefore(b) != Category(p) }

  /** Lines without a category that are printed under a tag of the literal category `Misc`. */
  predicate Misplaced(b: Before, p: KeyParts) {
    p == Misc && b.After? && b.parts.Tagged? && Literal(b.parts)
  }

  /** The lines of an item: a heading where its category begins, one for its tag, and its changes. */
  function LinesOf(b: Before, x: Parted): seq<string> {
    (if NewCategory(b, x.parts) then ["", "- " + Category(x.parts)] else []) + BodyOf(b, x)
  }

  function BodyOf(b: Before, x: Parted): seq<string> {
    (if x.parts.Tagged? then ["", " - " + x.parts.tag] else [])
        + Changes(x.changes, x.parts.Tagged? || Misplaced(b, x.parts))
  }

  lemma UntaggedIsNew(b: Before, p: KeyParts)
    requires ValidParts(p) && (b.After? ==> ValidParts(b.parts) && Less(KeyText(b.parts), KeyText(p)))
    requires !p.Tagged? && !(p == Misc && b.After? && Literal(b.parts))
    ensures NewCategory(b, p)
  {
    CategoryNotEmpty(p);
    if !NewCategory(b, p) {
      if b.parts == Misc {
        if p != Misc { NothingBehindMisc(p); }
        LessIrreflexive(MISC);
      } else if b.parts.Tagged? {
        PlainComesFirst(b.parts.category, b.parts.tag);
      } else {
        LessIrreflexive(KeyText(p));
      }
    }
  }

  lemma BehindMiscIsNew(p: KeyParts)
    requires ValidParts(p) && Less(MISC, KeyText(p))
    ensures NewCategory(After(Misc), p)
  {
    if p == Misc { LessIrreflexive(MISC); } else if Literal(p) { NothingBehindMisc(p); }
  }

  lemma CategoryNotEmpty(p: KeyParts)
    requires ValidParts(p)
    ensures Category(p) != ""
  {
  }

  lemma ItemPrinted(p: Printer, b: Before, x: Parted)
    requires ValidParts(x.parts) && (b.After? ==> ValidParts(b.parts) && Less(KeyText(b.parts), KeyText(x.parts)))
    requires Agrees(p, b)
    ensures NamesTag(Display(ItemOf(x).key))
    ensures ItemLines(p, ItemOf(x)) == LinesOf(b, x)
    ensures Agrees(AfterItem(p, Display(ItemOf(x).key)), After(x.parts))
  {
    hide ValidParts, Less, Changes, Split;
    DisplayedParts(x.parts);
    CategoryNotEmpty(x.parts);
    if b == After(Misc) { BehindMiscIsNew(x.parts); }
    if x.parts.Tagged? {
      LessIrreflexive(KeyText(x.parts));
      assert x.parts.category + "/" + x.parts.tag == KeyText(x.parts);
    } else if !(x.parts == Misc && b.After? && Literal(b.parts)) {
      UntaggedIsNew(b, x.parts);
    } else {
      assert KeyText(b.parts) != "";
    }
    Regroup(if NewCategory(b, x.parts) then ["", "- " + Category(x.parts)] else [],
             if x.parts.Tagged? then ["", " - " + x.parts.tag] else [],
             Changes(x.changes, x.parts.Tagged? || Misplaced(b, x.parts)));
  }

  function AllLines(b: Before, xs: seq<Parted>): seq<string>
    decreases |xs|
  {
    if xs == [] then [] else LinesOf(b, xs[0]) + AllLines(After(xs[0].parts), xs[1..])
  }

  lemma NamesTags(xs: seq<Parted>)
    requires SortedItems(xs)
    ensures forall i | 0 <= i < |Items(xs)| :: NamesTag(Display(Items(xs)[i].key))
  {
    forall i | 0 <= i < |xs| ensures NamesTag(Display(Items(xs)[i].key)) { DisplayedParts(xs[i].parts); }
  }

  lemma {:induction false} ReportPrinted(p: Printer, b: Before, xs: seq<Parted>)
    requires SortedItems(xs) && Precedes(b, xs) && Agrees(p, b)
    ensures forall i | 0 <= i < |Items(xs)| :: NamesTag(Display(Items(xs)[i].key))
    ensures Report(p, Items(xs)) == AllLines(b, xs)
    decreases |xs|
  {
    hide ValidParts, Less, KeyText, NamesTag, ItemLines, AfterItem, Agrees, LinesOf;
    NamesTags(xs);
    if xs != [] {
      ItemPrinted(p, b, xs[0]);
      assert Items(xs)[1..] == Items(xs[1..]);
      SortedTail(xs);
      ReportPrinted(AfterItem(p, Display(ItemOf(xs[0]).key)), After(xs[0].parts), xs[1..]);
    }
  }

  // ----- reading the report -----

  function KeyOf(category: string, tag: string): string {
    if tag != "" then category + "/" + tag else if category == "Misc" then MISC else category
  }

  /** The changes of a report with the keys of the headings they stand under. */
  function Parse(lines: seq<string>, category: string, tag: string): seq<Entry>
    decreases |lines|
  {
    if lines == [] then []
    else if lines[0] == "" && |lines| >= 2 && "- " <= lines[1] then Parse(lines[2..], lines[1][2..], "")
    else if lines[0] == "" && |lines| >= 2 && " - " <= lines[1] then Parse(lines[2..], category, lines[1][3..])
    else if tag == "" && " - " <= lines[0]
        then [Entry(KeyOf(category, tag), lines[0][3..])] + Parse(lines[1..], category, tag)
    else if tag != "" && "  - " <= lines[0]
        then [Entry(KeyOf(category, tag), lines[0][4..])] + Parse(lines[1..], category, tag)
    else Parse(lines[1..], category, tag)
  }

  function EntriesOf(key: string, changes: seq<string>): seq<Entry> {
    if changes == [] then [] else [Entry(key, changes[0])] + EntriesOf(key, changes[1..])
  }

  function AllEntries(xs: seq<Parted>): seq<Entry> {
    if xs == [] then [] else EntriesOf(KeyText(xs[0].parts), xs[0].changes) + AllEntries(xs[1..])
  }

  lemma ChangeParsed(change: string, rest: seq<string>, category: string, tag: string)
    ensures Parse([(if tag != "" then "  - " else " - ") + change] + rest, category, tag)
            == [Entry(KeyOf(category, tag), change)] + Parse(rest, category, tag)
  {
    var prefix := if tag != "" then "  - " else " - ";
    var line := prefix + change;
    var lines := [line] + rest;
    assert lines[0] == line && lines[1..] == rest;
    assert line[0] == ' ' && line[|prefix|..] == change && prefix <= line;
  }

  lemma ChangesText(changes: seq<string>, tagged: bool, rest: seq<string>)
    requires changes != []
    ensures Changes(changes, tagged) + rest
            == [(if tagged then "  - " else " - ") + changes[0]] + (Changes(changes[1..], tagged) + rest)
  {
  }

  lemma EntriesText(key: string, changes: seq<string>, rest: seq<Entry>)
    requires changes != []
    ensures EntriesOf(key, changes) + rest == [Entry(key, changes[0])] + (EntriesOf(key, changes[1..]) + rest)
  {
  }

  lemma {:induction false} ChangesParsed(changes: seq<string>, rest: seq<string>, category: string, tag: string)
    ensures Parse(Changes(changes, tag != "") + rest, category, tag)
            == EntriesOf(KeyOf(category, tag), changes) + Parse(rest, category, tag)
  {
    if changes == [] {
      assert Changes(changes, tag != "") + rest == rest;
    } else {
      ChangesParsed(changes[1..], rest, category, tag);
      ChangeParsed(changes[0], Changes(changes[1..], tag != "") + rest, category, tag);
      ChangesText(changes, tag != "", rest);
      EntriesText(KeyOf(category, tag), changes, Parse(rest, category, tag));
    }
  }

  lemma CategoryParsed(c: string, rest: seq<string>, category: string, tag: string)
    ensures Parse(["", "- " + c] + rest, category, tag) == Parse(rest, c, "")
  {
    var lines := ["", "- " + c] + rest;
    assert lines[0] == "" && lines[1] == "- " + c && lines[2..] == rest;
    assert ("- " + c)[2..] == c;
  }

  lemma TagParsed(t: string, rest: seq<string>, category: string, tag: string)
    ensures Parse(["", " - " + t] + rest, category, tag) == Parse(rest, category, t)
  {
    var lines := ["", " - " + t] + rest;
    assert lines[0] == "" && lines[1] == " - " + t && lines[2..] == rest;
    assert (" - " + t)[3..] == t && (" - " + t)[0] == ' ';
  }

  /** The key under which a reader of the report finds the changes of an item. */
  function ReadKey(b: Before, p: KeyParts): string {
    if Misplaced(b, p) then KeyText(b.parts) else KeyOf(Category(p), TagOf(p))
  }

  function ReadTag(b: Before, p: KeyParts): string {
    if Misplaced(b, p) then TagBefore(b) else TagOf(p)
  }

  function AllRead(b: Before, xs: seq<Parted>): seq<Entry>
    decreases |xs|
  {
    if xs == [] then [] else EntriesOf(ReadKey(b, xs[0].parts), xs[0].changes) + AllRead(After(xs[0].parts), xs[1..])
  }

  /** The reader's tag agrees with what was printed last. */
  predicate ReaderAgrees(tag: string, b: Before) { b == After(Misc) || tag == TagBefore(b) }

  /** The lines of an item behind its category heading. */
  lemma {:induction false} BodyParsed(b: Before, x: Parted, rest: seq<string>, tag: string)
    requires ValidParts(x.parts) && (b.After? ==> ValidParts(b.parts))
    requires x.parts.Tagged? || tag == if Misplaced(b, x.parts) then TagBefore(b) else ""
    ensures Parse(BodyOf(b, x) + rest, Category(x.parts), tag)
            == EntriesOf(ReadKey(b, x.parts), x.changes) + Parse(rest, Category(x.parts), ReadTag(b, x.parts))
  {
    hide Parse, Changes, EntriesOf;
    var c, t := Category(x.parts), ReadTag(b, x.parts);
    var tagged := x.parts.Tagged? || Misplaced(b, x.parts);
    var changes := Changes(x.changes, tagged);
    assert tagged <==> t != "";
    assert KeyOf(c, t) == ReadKey(b, x.parts);
    ChangesParsed(x.changes, rest, c, t);
    if x.parts.Tagged? {
      TagParsed(t, changes + rest, c, tag);
      Regroup(["", " - " + t], changes, rest);
    } else {
      assert [] + changes == changes;
    }
  }

  lemma ItemText(b: Before, x: Parted, rest: seq<string>)
    ensures LinesOf(b, x) + rest
            == if NewCategory(b, x.parts) then ["", "- " + Category(x.parts)] + (BodyOf(b, x) + rest)
                else BodyOf(b, x) + rest
  {
    hide BodyOf;
    assert [] + BodyOf(b, x) == BodyOf(b, x);
    Regroup(["", "- " + Category(x.parts)], BodyOf(b, x), rest);
  }

  lemma {:induction false} ItemParsed(b: Before, x: Parted, rest: seq<string>, tag: string)
    requires ValidParts(x.parts) && (b.After? ==> ValidParts(b.parts) && Less(KeyText(b.parts), KeyText(x.parts)))
    requires ReaderAgrees(tag, b)
    ensures Parse(LinesOf(b, x) + rest, CategoryBefore(b), tag)
            == EntriesOf(ReadKey(b, x.parts), x.changes) + Parse(rest, Category(x.parts), ReadTag(b, x.parts))
    ensures ReaderAgrees(ReadTag(b, x.parts), After(x.parts))
  {
    hide Parse, LinesOf, BodyOf, EntriesOf, KeyText, Less, ValidParts;
    ItemText(b, x, rest);
    if NewCategory(b, x.parts) {
      BodyParsed(b, x, rest, "");
      CategoryParsed(Category(x.parts), BodyOf(b, x) + rest, CategoryBefore(b), tag);
    } else {
      CategoryNotEmpty(x.parts);
      if b == After(Misc) {
        assert KeyText(Misc) == MISC by { MiscKey(); }
        BehindMiscIsNew(x.parts);
      }
      if !x.parts.Tagged? && !(x.parts == Misc && b.After? && Literal(b.parts)) { UntaggedIsNew(b, x.parts); }
      BodyParsed(b, x, rest, tag);
    }
  }

  lemma MiscKey()
    ensures KeyText(Misc) == MISC
  {
  }

  lemma {:induction false} LinesParsed(b: Before, xs: seq<Parted>, tag: string)
    requires SortedItems(xs) && Precedes(b, xs) && ReaderAgrees(tag, b)
    ensures Parse(AllLines(b, xs), CategoryBefore(b), tag) == AllRead(b, xs)
    decreases |xs|
  {
    hide KeyText, Less, ValidParts, LinesOf, ReadKey, ReadTag, EntriesOf, ReaderAgrees;
    if xs == [] {
      ParseNothing(CategoryBefore(b), tag);
    } else {
      hide Parse;
      var p, rest := xs[0].parts, xs[1..];
      SortedTail(xs);
      ItemParsed(b, xs[0], AllLines(After(p), rest), tag);
      LinesParsed(After(p), rest, ReadTag(b, p));
    }
  }

  lemma ParseNothing(category: string, tag: string)
    ensures Parse([], category, tag) == []
  {
  }

  lemma SortedTail(xs: seq<Parted>)
    requires SortedItems(xs) && xs != []
    ensures SortedItems(xs[1..]) && Precedes(After(xs[0].parts), xs[1..])
  {
  }

  function Previous(b: Before, xs: seq<Parted>, i: nat): Before
    requires i <= |xs|
  {
    if i == 0 then b else After(xs[i - 1].parts)
  }

  /** Item `i` does not mix the literal category `Misc` with the lines without a category. */
  predicate Apart(b: Before, xs: seq<Parted>, i: nat)
    requires i < |xs|
  {
    xs[i].changes == [] || (xs[i].parts != Plain("Misc") && !Misplaced(Previous(b, xs, i), xs[i].parts))
  }

  lemma {:induction false} EntriesCompare(k: string, k': string, changes: seq<string>, a: seq<Entry>, a': seq<Entry>)
    ensures EntriesOf(k, changes) + a == EntriesOf(k', changes) + a' <==> (changes == [] || k == k') && a == a'
  {
    if changes == [] {
      assert [] + a == a && [] + a' == a';
    } else {
      EntriesText(k, changes, a);
      EntriesText(k', changes, a');
      var u, u' := EntriesOf(k, changes[1..]) + a, EntriesOf(k', changes[1..]) + a';
      hide EntriesOf;
      EntriesCompare(k, k', changes[1..], a, a');
      assert ([Entry(k, changes[0])] + u)[1..] == u && ([Entry(k', changes[0])] + u')[1..] == u';
      assert ([Entry(k, changes[0])] + u)[0] == Entry(k, changes[0])
          && ([Entry(k', changes[0])] + u')[0] == Entry(k', changes[0]);
    }
  }

  lemma ReadKeyRight(b: Before, p: KeyParts)
    requires ValidParts(p) && (b.After? ==> ValidParts(b.parts))
    ensures ReadKey(b, p) == KeyText(p) <==> p != Plain("Misc") && !Misplaced(b, p)
  {
    if Misplaced(b, p) {
      assert KeyText(b.parts)[0] == 'M' && MISC[0] == '_';
    } else if p.Plain? && p.category == "Misc" {
      assert "Misc"[0] != MISC[0];
    }
  }

  lemma {:induction false} ReadExactly(b: Before, xs: seq<Parted>)
    requires (forall i | 0 <= i < |xs| :: ValidParts(xs[i].parts)) && (b.After? ==> ValidParts(b.parts))
    ensures AllRead(b, xs) == AllEntries(xs) <==> forall i | 0 <= i < |xs| :: Apart(b, xs, i)
    decreases |xs|
  {
    if xs != [] {
      hide EntriesOf, KeyText, ReadKey, ValidParts;
      var p, rest := xs[0].parts, xs[1..];
      ReadExactly(After(p), rest);
      ReadKeyRight(b, p);
      EntriesCompare(ReadKey(b, p), KeyText(p), xs[0].changes, AllRead(After(p), rest), AllEntries(rest));
      ApartTail(b, xs);
    }
  }

  lemma ApartTail(b: Before, xs: seq<Parted>)
    requires xs != []
    ensures (forall i | 0 <= i < |xs| :: Apart(b, xs, i))
            <==> Apart(b, xs, 0) && forall i | 0 <= i < |xs| - 1 :: Apart(After(xs[0].parts), xs[1..], i)
  {
    hide Misplaced;
    var rest := xs[1..];
    forall i | 0 <= i < |rest|
      ensures Apart(After(xs[0].parts), rest, i) == Apart(b, xs, i + 1)
    {
      assert rest[i] == xs[i + 1];
      assert i > 0 ==> rest[i - 1] == xs[i];
    }
    if Apart(b, xs, 0) && forall i | 0 <= i < |rest| :: Apart(After(xs[0].parts), rest, i) {
      forall i | 0 <= i < |xs|
        ensures Apart(b, xs, i)
      {
        if i > 0 { assert Apart(After(xs[0].parts), rest, i - 1); }
      }
    }
  }

  /**
   The report reads back as the sorted groups if and only if no line names `Misc` as its category without a
   tag, and lines without a category do not directly follow a tag of the category `Misc`.
   */
  lemma ReportReadsBack(xs: seq<Parted>)
    requires SortedItems(xs)
    ensures forall i | 0 <= i < |Items(xs)| :: NamesTag(Display(Items(xs)[i].key))
    ensures Parse(Report(Printer("", ""), Items(xs)), "", "") == AllEntries(xs)
            <==> forall i | 0 <= i < |xs| :: Apart(Start, xs, i)
  {
    ReportParsed(xs);
    ReadExactly(Start, xs);
  }

  lemma ReportParsed(xs: seq<Parted>)
    requires SortedItems(xs)
    ensures forall i | 0 <= i < |Items(xs)| :: NamesTag(Display(Items(xs)[i].key))
    ensures Parse(Report(Printer("", ""), Items(xs)), "", "") == AllRead(Start, xs)
  {
    hide Parse, Report, SortedItems, AllRead, AllLines;
    ReportPrinted(Printer("", ""), Start, xs);
    LinesParsed(Start, xs, "");
  }

  /** With a literal category `Misc`, the other lines can end up under its last tag. */
  lemma LiteralMiscMisfiles(t: string, a: string, b: string)
    requires IsWord(t)
    ensures var xs := [Parted(Tagged("Misc", t), [a]), Parted(Misc, [b])];
            && SortedItems(xs) && !Apart(Start, xs, 1)
            && (forall i | 0 <= i < |Items(xs)| :: NamesTag(Display(Items(xs)[i].key)))
            && Parse(Report(Printer("", ""), Items(xs)), "", "") == [Entry("Misc/" + t, a), Entry("Misc/" + t, b)]
  {
    var xs := [Parted(Tagged("Misc", t), [a]), Parted(Misc, [b])];
    MiscSortsBefore(t);
    MisfiledRead(t, a, b);
    assert Misplaced(Previous(Start, xs, 1), xs[1].parts);
    hide Parse, Report, AllRead;
    ReportParsed(xs);
  }

  lemma MisfiledRead(t: string, a: string, b: string)
    requires IsWord(t)
    ensures AllRead(Start, [Parted(Tagged("Misc", t), [a]), Parted(Misc, [b])])
            == [Entry("Misc/" + t, a), Entry("Misc/" + t, b)]
  {
    var p := Tagged("Misc", t);
    var xs := [Parted(p, [a]), Parted(Misc, [b])];
    assert xs[1..] == [Parted(Misc, [b])] && xs[1..][1..] == [];
    var k := KeyText(p);
    assert k == "Misc/" + t;
    OneEntry(k, a);
    OneEntry(k, b);
    assert KeyOf("Misc", t) == k;
    assert AllRead(After(p), xs[1..]) == [Entry(k, b)] + AllRead(After(Misc), []);
    assert AllRead(Start, xs) == [Entry(k, a)] + ([Entry(k, b)] + []);
  }

  lemma MiscSortsBefore(t: string)
    requires IsWord(t)
    ensures ValidParts(Tagged("Misc", t)) && Less(KeyText(Tagged("Misc", t)), MISC)
  {
    assert IsWord("Misc");
    assert KeyText(Tagged("Misc", t))[0] == 'M' && MISC[0] == '_';
  }

  lemma OneEntry(k: string, a: string)
    ensures EntriesOf(k, [a]) == [Entry(k, a)]
  {
    assert [a][1..] == [];
  }

  // ----- headings -----

  function Headings(lines: seq<string>): seq<string>
    decreases |lines|
  {
    if |lines| < 2 then []
    else if lines[0] == "" && "- " <= lines[1] then [lines[1][2..]] + Headings(lines[2..])
    else Headings(lines[1..])
  }

  lemma {:induction false} ChangesHaveNoHeading(changes: seq<string>, tagged: bool, rest: seq<string>)
    ensures Headings(Changes(changes, tagged) + rest) == Headings(rest)
  {
    var lines := Changes(changes, tagged) + rest;
    if changes == [] {
      assert lines == rest;
    } else {
      ChangesHaveNoHeading(changes[1..], tagged, rest);
      assert lines[1..] == Changes(changes[1..], tagged) + rest;
      assert lines[0][0] == ' ';
    }
  }

  lemma CategoryHeading(c: string, rest: seq<string>)
    ensures Headings(["", "- " + c] + rest) == [c] + Headings(rest)
  {
    var lines := ["", "- " + c] + rest;
    assert lines[0] == "" && lines[1] == "- " + c && lines[2..] == rest && ("- " + c)[2..] == c;
  }

  lemma TagHeading(t: string, rest: seq<string>)
    ensures Headings(["", " - " + t] + rest) == Headings(rest)
  {
    var lines := ["", " - " + t] + rest;
    assert lines[1] == " - " + t && lines[1][0] == ' ';
    assert lines[1..] == [" - " + t] + rest && lines[1..][1..] == rest;
    assert lines[1..][0][0] == ' ';
  }

  lemma {:induction false} ItemHeading(b: Before, x: Parted, rest: seq<string>)
    ensures Headings(LinesOf(b, x) + rest)
            == (if NewCategory(b, x.parts) then [Category(x.parts)] else []) + Headings(rest)
  {
    hide Headings, LinesOf, NewCategory, Category;
    BodyHasNoHeading(b, x, rest);
    ItemText(b, x, rest);
    if NewCategory(b, x.parts) {
      CategoryHeading(Category(x.parts), BodyOf(b, x) + rest);
    } else {
      assert [] + Headings(rest) == Headings(rest);
    }
  }

  lemma BodyHasNoHeading(b: Before, x: Parted, rest: seq<string>)
    ensures Headings(BodyOf(b, x) + rest) == Headings(rest)
  {
    hide Headings, Changes, Misplaced;
    var tagged := x.parts.Tagged? || Misplaced(b, x.parts);
    var changes := Changes(x.changes, tagged);
    ChangesHaveNoHeading(x.changes, tagged, rest);
    if x.parts.Tagged? {
      Regroup(["", " - " + x.parts.tag], changes, rest);
      TagHeading(x.parts.tag, changes + rest);
    } else {
      assert [] + changes == changes;
    }
  }

  function Categories(xs: seq<Parted>): seq<string> {
    seq(|xs|, i requires 0 <= i < |xs| => Category(xs[i].parts))
  }

  /** Where a run of equal categories begins, behind category `c`. */
  function Runs(c: string, cs: seq<string>): seq<string>
    decreases |cs|
  {
    if cs == [] then [] else (if cs[0] != c then [cs[0]] else []) + Runs(cs[0], cs[1..])
  }

  lemma {:induction false} HeadingsAreRuns(b: Before, xs: seq<Parted>)
    ensures Headings(AllLines(b, xs)) == Runs(CategoryBefore(b), Categories(xs))
    decreases |xs|
  {
    if xs != [] {
      hide LinesOf, Category;
      assert Categories(xs)[1..] == Categories(xs[1..]);
      ItemHeading(b, xs[0], AllLines(After(xs[0].parts), xs[1..]));
      HeadingsAreRuns(After(xs[0].parts), xs[1..]);
    }
  }

  /** Equal categories have only equal ones between them. */
  predicate Contiguous(cs: seq<string>) {
    forall i, j, k | 0 <= i < j < k < |cs| :: Fills(cs, i, j, k)
  }

  predicate Fills(cs: seq<string>, i: nat, j: nat, k: nat)
    requires i < j < k < |cs|
  {
    cs[i] == cs[k] ==> cs[j] == cs[i]
  }

  lemma {:induction false} RunsContain(c: string, cs: seq<string>, d: string)
    requires c != d
    ensures d in Runs(c, cs) <==> d in cs
    decreases |cs|
  {
    if cs != [] && cs[0] != d { RunsContain(cs[0], cs[1..], d); }
  }

  lemma {:induction false} RunsDistinct(c: string, cs: seq<string>)
    ensures Distinct(Runs(c, cs)) && c !in Runs(c, cs) <==> Contiguous([c] + cs)
    decreases |cs|
  {
    if cs != [] {
      var d, rest := cs[0], cs[1..];
      RunsDistinct(d, rest);
      assert [d] + rest == cs;
      RunsStep(c, cs);
      if c != d { RunsContain(d, rest, c); }
      ContiguousStep(c, cs);
    }
  }

  lemma RunsStep(c: string, cs: seq<string>)
    requires cs != []
    ensures var rest := Runs(cs[0], cs[1..]);
            Distinct(Runs(c, cs)) <==> Distinct(rest) && (cs[0] != c ==> cs[0] !in rest)
  {
    var d, rest := cs[0], Runs(cs[0], cs[1..]);
    RunsUnfold(c, cs);
    hide Runs, Distinct;
    if d != c { DistinctCons(d, rest); } else { assert [] + rest == rest; }
  }

  lemma DistinctCons(d: string, rest: seq<string>)
    ensures Distinct([d] + rest) <==> Distinct(rest) && d !in rest
  {
    var s := [d] + rest;
    assert s[0] == d && forall i | 0 <= i < |rest| :: s[i + 1] == rest[i];
    if Distinct(s) {
      forall i, j | 0 <= i < j < |rest| ensures rest[i] != rest[j] { assert s[i + 1] != s[j + 1]; }
      forall i | 0 <= i < |rest| ensures rest[i] != d { assert s[0] != s[i + 1]; }
    }
  }

  lemma RunsUnfold(c: string, cs: seq<string>)
    requires cs != []
    ensures Runs(c, cs) == (if cs[0] != c then [cs[0]] else []) + Runs(cs[0], cs[1..])
  {
  }

  lemma ContiguousStep(c: string, cs: seq<string>)
    requires cs != []
    ensures Contiguous([c] + cs) <==> Contiguous(cs) && (cs[0] != c ==> c !in cs[1..])
  {
    if Contiguous([c] + cs) { ContiguousTail(c, cs); }
    if Contiguous(cs) && (cs[0] != c ==> c !in cs[1..]) {
      forall i, j, k | 0 <= i < j < k < |cs| + 1 ensures Fills([c] + cs, i, j, k) { ContiguousCons(c, cs, i, j, k); }
    }
  }

  lemma ContiguousTail(c: string, cs: seq<string>)
    requires cs != [] && Contiguous([c] + cs)
    ensures Contiguous(cs) && (cs[0] != c ==> c !in cs[1..])
  {
    var s := [c] + cs;
    forall i, j, k | 0 <= i < j < k < |cs| ensures Fills(cs, i, j, k) { assert Fills(s, i + 1, j + 1, k + 1); }
    if cs[0] != c {
      forall k | 0 <= k < |cs| - 1 ensures cs[1..][k] != c { assert Fills(s, 0, 1, k + 2) && s[k + 2] == cs[k + 1]; }
    }
  }

  lemma ContiguousCons(c: string, cs: seq<string>, i: nat, j: nat, k: nat)
    requires cs != [] && Contiguous(cs) && (cs[0] != c ==> c !in cs[1..]) && i < j < k <= |cs|
    ensures Fills([c] + cs, i, j, k)
  {
    var s := [c] + cs;
    assert s[j] == cs[j - 1] && s[k] == cs[k - 1] == cs[1..][k - 2];
    if i > 0 {
      assert s[i] == cs[i - 1];
      assert Fills(cs, i - 1, j - 1, k - 1);
    } else if j > 1 {
      assert Fills(cs, 0, j - 1, k - 1);
    }
  }

  /**
   The category `Misc` is named by lines, followed by another one, and printed again for the lines without a
   category.
   */
  predicate MiscTwice(xs: seq<Parted>) {
    exists i, j, k | 0 <= i < j < k < |xs| ::
      Literal(xs[i].parts) && Category(xs[j].parts) != "Misc" && xs[k].parts == Misc
  }

  /** An instance: `Misc: a`, `Zed: b` and a line without a category. */
  lemma MiscComesBack(a: string, b: string, c: string)
    ensures var xs := [Parted(Plain("Misc"), [a]), Parted(Plain("Zed"), [b]), Parted(Misc, [c])];
            SortedItems(xs) && MiscTwice(xs)
  {
    var xs := [Parted(Plain("Misc"), [a]), Parted(Plain("Zed"), [b]), Parted(Misc, [c])];
    assert "Misc"[0] < "Zed"[0] < MISC[0];
    assert Less("Misc", "Zed") && Less("Zed", MISC) && Less("Misc", MISC);
    assert Literal(xs[0].parts) && Category(xs[1].parts) != "Misc" && xs[2].parts == Misc;
  }

  lemma CategoriesContiguous(xs: seq<Parted>)
    requires SortedItems(xs)
    ensures Contiguous(Categories(xs)) <==> !MiscTwice(xs)
  {
    hide ValidParts, Less, KeyText, Literal, Category;
    var cs := Categories(xs);
    if !MiscTwice(xs) {
      forall i, j, k | 0 <= i < j < k < |cs| ensures Fills(cs, i, j, k) { CategoryFills(xs, i, j, k); }
    } else {
      var i, j, k :| 0 <= i < j < k < |xs| && Literal(xs[i].parts) && Category(xs[j].parts) != "Misc"
          && xs[k].parts == Misc;
      CategoryReturns(xs, i, j, k);
    }
  }

  lemma CategoryFills(xs: seq<Parted>, i: nat, j: nat, k: nat)
    requires SortedItems(xs) && !MiscTwice(xs) && i < j < k < |xs|
    ensures Fills(Categories(xs), i, j, k)
  {
    hide ValidParts, Less, KeyText;
    var p, q, r := xs[i].parts, xs[j].parts, xs[k].parts;
    if Category(p) == Category(r) && !(Literal(p) && r == Misc) { CategoryIsContiguous(p, q, r); }
  }

  lemma CategoryReturns(xs: seq<Parted>, i: nat, j: nat, k: nat)
    requires i < j < k < |xs| && Literal(xs[i].parts) && Category(xs[j].parts) != "Misc" && xs[k].parts == Misc
    ensures !Fills(Categories(xs), i, j, k)
  {
  }

  /** Every category heading is printed once, unless `Misc` comes back for the lines without a category. */
  lemma HeadingsOnce(xs: seq<Parted>)
    requires SortedItems(xs)
    ensures forall i | 0 <= i < |Items(xs)| :: NamesTag(Display(Items(xs)[i].key))
    ensures Distinct(Headings(Report(Printer("", ""), Items(xs)))) <==> !MiscTwice(xs)
  {
    hide Headings, Report, Runs, AllLines, MiscTwice, Contiguous, Less, KeyText, Category;
    ReportPrinted(Printer("", ""), Start, xs);
    HeadingsAreRuns(Start, xs);
    var cs := Categories(xs);
    forall i | 0 <= i < |cs| ensures cs[i] != "" { CategoryNotEmpty(xs[i].parts); }
    RunsDistinct("", cs);
    NotInRuns("", cs);
    FromNothing(cs);
    CategoriesContiguous(xs);
  }

  lemma {:induction false} NotInRuns(c: string, cs: seq<string>)
    requires c !in cs
    ensures c !in Runs(c, cs)
  {
    if cs != [] { RunsContain(cs[0], cs[1..], c); }
  }

  lemma FromNothing(cs: seq<string>)
    requires "" !in cs
    ensures Contiguous([""] + cs) <==> Contiguous(cs)
  {
    if cs != [] {
      ContiguousStep("", cs);
    } else {
      assert |[""] + cs| == 1;
    }
  }

  // ----- conservation -----

  /** The items are those of the groups. */
  predicate Lists(xs: seq<Parted>, g: Groups) {
    && (forall i | 0 <= i < |xs| :: KeyText(xs[i].parts) in g && g[KeyText(xs[i].parts)] == xs[i].changes)
    && (forall k | k in g :: exists i | 0 <= i < |xs| :: KeyText(xs[i].parts) == k)
  }

  lemma {:induction false} MessageCount(entries: seq<Entry>, k: string, m: string)
    ensures multiset(Messages(entries, k))[m] == multiset(entries)[Entry(k, m)]
  {
    if entries != [] {
      var n := |entries| - 1;
      MessageCount(entries[..n], k, m);
      var init, last := entries[..n], entries[n];
      assert entries == init + [last];
      var tail := if last.key == k then [last.message] else [];
      assert Messages(entries, k) == Messages(init, k) + tail;
      hide Messages;
      assert multiset(entries) == multiset(init) + multiset{last};
    }
  }

  lemma {:induction false} EntryCount(key: string, changes: seq<string>, k: string, m: string)
    ensures multiset(EntriesOf(key, changes))[Entry(k, m)] == if k == key then multiset(changes)[m] else 0
  {
    if changes != [] {
      EntryCount(key, changes[1..], k, m);
      assert changes == [changes[0]] + changes[1..];
      var rest := EntriesOf(key, changes[1..]);
      assert EntriesOf(key, changes) == [Entry(key, changes[0])] + rest;
    }
  }

  lemma {:induction false} AbsentCount(xs: seq<Parted>, k: string, m: string)
    requires forall i | 0 <= i < |xs| :: KeyText(xs[i].parts) != k
    ensures multiset(AllEntries(xs))[Entry(k, m)] == 0
  {
    if xs != [] {
      AbsentCount(xs[1..], k, m);
      EntryCount(KeyText(xs[0].parts), xs[0].changes, k, m);
    }
  }

  lemma {:induction false} PresentCount(xs: seq<Parted>, j: nat, m: string)
    requires SortedItems(xs) && j < |xs|
    ensures multiset(AllEntries(xs))[Entry(KeyText(xs[j].parts), m)] == multiset(xs[j].changes)[m]
  {
    hide KeyText, ValidParts, EntriesOf;
    var k := KeyText(xs[j].parts);
    EntryCount(KeyText(xs[0].parts), xs[0].changes, k, m);
    LessIrreflexive(k);
    if j == 0 {
      AbsentCount(xs[1..], k, m);
    } else {
      PresentCount(xs[1..], j - 1, m);
    }
  }

  // ----- every changelog has its sorted items -----

  lemma {:induction false} LessTotal(a: string, b: string)
    requires a != b
    ensures Less(a, b) || Less(b, a)
  {
    if a != "" && b != "" && a[0] == b[0] {
      assert a == [a[0]] + a[1..] && b == [b[0]] + b[1..];
      LessTotal(a[1..], b[1..]);
    }
  }

  function ItemKey(x: Parted): string { KeyText(x.parts) }

  /** A new item, put where it belongs. */
  lemma {:induction false} Inserted(x: Parted, xs: seq<Parted>) returns (ys: seq<Parted>)
    requires SortedItems(xs) && ValidParts(x.parts) && forall i | 0 <= i < |xs| :: ItemKey(xs[i]) != ItemKey(x)
    ensures SortedItems(ys) && forall y :: y in ys <==> y == x || y in xs
    decreases |xs|
  {
    hide KeyText, ValidParts, Less;
    if xs == [] {
      ys := [x];
    } else {
      LessTotal(ItemKey(x), ItemKey(xs[0]));
      if Less(ItemKey(x), ItemKey(xs[0])) {
        forall i | 0 <= i < |xs|
          ensures Less(ItemKey(x), ItemKey(xs[i]))
        {
          if i > 0 { LessTransitive(ItemKey(x), ItemKey(xs[0]), ItemKey(xs[i])); }
        }
        ys := [x] + xs;
      } else {
        var zs := Inserted(x, xs[1..]);
        ys := [xs[0]] + zs;
        forall i | 0 <= i < |zs|
          ensures Less(ItemKey(xs[0]), ItemKey(zs[i]))
        {
          assert zs[i] in zs;
          if zs[i] != x { var j :| 0 <= j < |xs| - 1 && xs[1..][j] == zs[i]; assert zs[i] == xs[j + 1]; }
        }
        assert xs == [xs[0]] + xs[1..];
      }
    }
  }

  lemma PartsOf(k: string) returns (p: KeyParts)
    requires ValidKey(k)
    ensures ValidParts(p) && KeyText(p) == k
  {
    p :| ValidParts(p) && KeyText(p) == k;
  }

  /** Any groups with well-formed keys have their items in sorted order. */
  lemma {:induction false} SortedListing(g: Groups) returns (xs: seq<Parted>)
    requires forall k | k in g :: ValidKey(k)
    ensures SortedItems(xs) && Lists(xs, g)
    decreases |g|
  {
    hide KeyText, ValidParts, Less;
    if g == map[] {
      xs := [];
    } else {
      assert g.Keys != {};
      var k :| k in g.Keys;
      var rest := g - {k};
      assert k !in rest && rest.Keys == g.Keys - {k};
      assert |rest.Keys| < |g.Keys|;
      var ys := SortedListing(rest);
      var p := PartsOf(k);
      var x := Parted(p, g[k]);
      xs := Inserted(x, ys);
      ListsOneMore(g, k, x, ys, xs);
    }
  }

  lemma ListsOneMore(g: Groups, k: string, x: Parted, ys: seq<Parted>, xs: seq<Parted>)
    requires k in g && Lists(ys, g - {k}) && ItemKey(x) == k && x.changes == g[k]
    requires forall y :: y in xs <==> y == x || y in ys
    ensures Lists(xs, g)
  {
    hide KeyText;
    forall i | 0 <= i < |xs|
      ensures ItemKey(xs[i]) in g && g[ItemKey(xs[i])] == xs[i].changes
    {
      assert xs[i] in xs;
      if xs[i] != x { var j :| 0 <= j < |ys| && ys[j] == xs[i]; }
    }
    forall h | h in g
      ensures exists i | 0 <= i < |xs| :: ItemKey(xs[i]) == h
    {
      if h == k {
        assert x in xs;
      } else {
        assert h in (g - {k});
        var j :| 0 <= j < |ys| && KeyText(ys[j].parts) == h;
        assert ys[j] in xs;
      }
    }
  }

  /** From the lines to the report, with nothing assumed in between: there is one, and it holds every line once. */
  lemma EveryChangelogReported(lines: seq<string>, g: Groups) returns (xs: seq<Parted>)
    requires Holds(g, Classified(lines)) && forall k | k in g :: ValidKey(k)
    ensures SortedItems(xs) && Lists(xs, g)
    ensures forall i | 0 <= i < |Items(xs)| :: NamesTag(Display(Items(xs)[i].key))
    ensures var read := Parse(Report(Printer("", ""), Items(xs)), "", "");
            && ReportsTexts(read, lines)
            && ((forall i | 0 <= i < |xs| :: Apart(Start, xs, i)) ==> ReportsEntries(read, lines))
  {
    xs := SortedListing(g);
    EveryLineOnce(lines, g, xs);
  }

  /** The texts of the report are those of the lines, each as often as it is there. */
  ghost predicate ReportsTexts(read: seq<Entry>, lines: seq<string>) {
    exists entries :: AllFiled(lines, entries) && multiset(Said(read)) == multiset(Said(entries))
  }

  /** So are the entries: every text is under the category and tag of its line. */
  ghost predicate ReportsEntries(read: seq<Entry>, lines: seq<string>) {
    exists entries :: AllFiled(lines, entries) && multiset(read) == multiset(entries)
  }

  function Said(entries: seq<Entry>): seq<string> {
    seq(|entries|, i requires 0 <= i < |entries| => entries[i].message)
  }

  lemma SaidConcat(a: seq<Entry>, b: seq<Entry>)
    ensures Said(a + b) == Said(a) + Said(b)
  {
  }

  lemma SaidWithout(b: seq<Entry>, j: nat)
    requires j < |b|
    ensures var rest := b[..j] + b[j + 1..];
            multiset(b) == multiset{b[j]} + multiset(rest)
                && multiset(Said(b)) == multiset{b[j].message} + multiset(Said(rest))
  {
    var x, y := b[..j], b[j + 1..];
    assert b == x + [b[j]] + y;
    hide Said;
    SaidConcat(x + [b[j]], y);
    SaidConcat(x, [b[j]]);
    SaidConcat(x, y);
    SaidOne(b[j]);
  }

  lemma SaidOne(e: Entry)
    ensures Said([e]) == [e.message]
  {
  }

  lemma {:induction false} SaidAlike(a: seq<Entry>, b: seq<Entry>)
    requires multiset(a) == multiset(b)
    ensures multiset(Said(a)) == multiset(Said(b))
    decreases |a|
  {
    if a == [] {
      assert |b| == |multiset(b)| == |multiset(a)| == 0;
    } else {
      hide Said;
      assert a[0] in multiset(b);
      var j :| 0 <= j < |b| && b[j] == a[0];
      SaidWithout(a, 0);
      SaidWithout(b, j);
      var x, y := a[..0] + a[1..], b[..j] + b[j + 1..];
      assert multiset(x) == multiset(a) - multiset{a[0]} == multiset(y);
      SaidAlike(x, y);
    }
  }

  lemma {:induction false} EntriesSay(key: string, changes: seq<string>)
    ensures Said(EntriesOf(key, changes)) == changes
  {
    if changes != [] {
      EntriesSay(key, changes[1..]);
      SaidConcat([Entry(key, changes[0])], EntriesOf(key, changes[1..]));
      assert changes == [changes[0]] + changes[1..];
    }
  }

  /** Whatever key they are read under, the changes are the same in the same order. */
  lemma {:induction false} ReadSaysAll(b: Before, xs: seq<Parted>)
    ensures Said(AllRead(b, xs)) == Said(AllEntries(xs))
    decreases |xs|
  {
    if xs != [] {
      hide EntriesOf, Said, ReadKey, KeyText;
      var p, changes, rest := xs[0].parts, xs[0].changes, xs[1..];
      ReadSaysAll(After(p), rest);
      SaidConcat(EntriesOf(ReadKey(b, p), changes), AllRead(After(p), rest));
      SaidConcat(EntriesOf(KeyText(p), changes), AllEntries(rest));
      EntriesSay(ReadKey(b, p), changes);
      EntriesSay(KeyText(p), changes);
    }
  }

  lemma EntriesConserved(lines: seq<string>, g: Groups, xs: seq<Parted>)
    requires Holds(g, Classified(lines)) && Lists(xs, g) && SortedItems(xs)
    ensures multiset(AllEntries(xs)) == multiset(Classified(lines))
  {
    hide Classified, KeyText, AllEntries;
    forall e: Entry
      ensures multiset(AllEntries(xs))[e] == multiset(Classified(lines))[e]
    {
      MessageCount(Classified(lines), e.key, e.message);
      if j :| 0 <= j < |xs| && KeyText(xs[j].parts) == e.key {
        PresentCount(xs, j, e.message);
      } else {
        AbsentCount(xs, e.key, e.message);
      }
    }
  }

  /**
   Every commit title is in the report exactly once, and nothing else is; and each reads back under its own
   heading exactly where the literal category `Misc` is not in the way.
   */
  lemma EveryLineOnce(lines: seq<string>, g: Groups, xs: seq<Parted>)
    requires Holds(g, Classified(lines)) && Lists(xs, g) && SortedItems(xs)
    ensures forall i | 0 <= i < |Items(xs)| :: NamesTag(Display(Items(xs)[i].key))
    ensures var read := Parse(Report(Printer("", ""), Items(xs)), "", "");
            && ReportsTexts(read, lines)
            && ((forall i | 0 <= i < |xs| :: Apart(Start, xs, i)) ==> ReportsEntries(read, lines))
  {
    ClassifiedFiled(lines);
    hide AllFiled;
    assert multiset(Classified(lines)) == multiset(Classified(lines));
    hide Parse, Report, Said, AllRead, AllEntries, Classified, Apart, Holds, Lists, SortedItems;
    ReportParsed(xs);
    ReportReadsBack(xs);
    EntriesConserved(lines, g, xs);
    ReadSaysAll(Start, xs);
    SaidAlike(AllEntries(xs), Classified(lines));
  }

}
