/** The changelog script: commit titles are grouped by category and tag, and the sorted groups printed. */
module Changelog {
  import opened Texts
  import opened Sequences

  datatype Entry = Entry(key: string, message: string)

  predicate IsAlnum(c: char) {
    '0' <= c <= '9' || 'A' <= c <= 'Z' || 'a' <= c <= 'z'
  }

  predicate IsWord(s: string) {
    s != "" && forall c | c in s :: IsAlnum(c)
  }

  /** The longest prefix of letters and digits. */
  function WordLength(s: string): (n: nat)
    ensures n <= |s|
    ensures forall i | 0 <= i < n :: IsAlnum(s[i])
    ensures n < |s| ==> !IsAlnum(s[n])
  {
    if s == "" || !IsAlnum(s[0]) then 0 else 1 + WordLength(s[1..])
  }

  const MISC := "_Misc"

  /** The category of a line by the two patterns, its tag if the first one matches, and the rest as its message. */
  function Classify(line: string): Entry {
    var n := WordLength(line);
    var rest := line[n..];
    if n == 0 || rest == "" then Entry(MISC, Trim(line))
    else if rest[0] == '/' then
      var m := WordLength(rest[1..]);
      var tail := rest[1..][m..];
      if m > 0 && |tail| > 1 && tail[0] == ':' then Entry(line[..n] + "/" + rest[1..][..m], Trim(tail[1..]))
      else Entry(MISC, Trim(line))
    else if rest[0] == ':' && |rest| > 1 then Entry(line[..n], Trim(rest[1..]))
    else Entry(MISC, Trim(line))
  }

  /** A key is a word, two words with a slash between them, or the key of everything else. */
  datatype KeyParts = Plain(category: string) | Tagged(category: string, tag: string) | Misc

  function KeyText(p: KeyParts): string {
    match p
    case Plain(c) => c
    case Tagged(c, t) => c + "/" + t
    case Misc => MISC
  }

  predicate ValidParts(p: KeyParts) {
    match p
    case Plain(c) => IsWord(c)
    case Tagged(c, t) => IsWord(c) && IsWord(t)
    case Misc => true
  }

  ghost predicate ValidKey(k: string) {
    exists p :: ValidParts(p) && KeyText(p) == k
  }

  lemma WordPrefix(s: string)
    requires WordLength(s) > 0
    ensures IsWord(s[..WordLength(s)])
  {
    var w := s[..WordLength(s)];
    forall c | c in w ensures IsAlnum(c) { var i :| 0 <= i < |w| && w[i] == c; assert IsAlnum(s[i]); }
  }

  lemma ClassifyValid(line: string)
    ensures ValidKey(Classify(line).key)
  {
    var n := WordLength(line);
    var rest := line[n..];
    assert ValidParts(Misc) && KeyText(Misc) == MISC;
    if n > 0 && rest != "" {
      WordPrefix(line);
      assert ValidParts(Plain(line[..n])) && KeyText(Plain(line[..n])) == line[..n];
      var m := WordLength(rest[1..]);
      if m > 0 {
        WordPrefix(rest[1..]);
        var p := Tagged(line[..n], rest[1..][..m]);
        assert ValidParts(p) && KeyText(p) == line[..n] + "/" + rest[1..][..m];
      }
    }
  }

  // ----- lines and what they are filed as -----

  predicate AllBlank(s: string) { forall c | c in s :: IsBlank(c) }

  /** `r` is `s` without the blanks around it. */
  ghost predicate Stripped(s: string, r: string) {
    && (r != "" ==> !IsBlank(r[0]) && !IsBlank(r[|r| - 1]))
    && exists a, b :: Surrounded(s, a, r, b)
  }

  predicate Surrounded(s: string, a: string, r: string, b: string) {
    s == a + r + b && AllBlank(a) && AllBlank(b)
  }

  /** A line with a category, a tag and something behind them. */
  predicate TaggedLine(line: string, c: string, t: string, m: string) {
    IsWord(c) && IsWord(t) && m != "" && line == c + (['/'] + (t + ([':'] + m)))
  }

  predicate CategoryLine(line: string, c: string, m: string) {
    IsWord(c) && m != "" && line == c + ([':'] + m)
  }

  /** Key and message are those of the form the line has. */
  ghost predicate FiledAs(line: string, e: Entry) {
    && (forall c, t, m | TaggedLine(line, c, t, m) :: e.key == c + "/" + t && Stripped(m, e.message))
    && (forall c, m | CategoryLine(line, c, m) :: e.key == c && Stripped(m, e.message))
    && ((forall c, t, m :: !TaggedLine(line, c, t, m)) && (forall c, m :: !CategoryLine(line, c, m)) ==>
          e.key == "_Misc" && Stripped(line, e.message))
  }

  lemma StripFront(s: string, r: string)
    requires s != "" && IsBlank(s[0]) && Stripped(s[1..], r)
    ensures Stripped(s, r)
  {
    hide IsBlank;
    var a, b :| Surrounded(s[1..], a, r, b);
    Uncons(s);
    Regroup([s[0]], a + r, b);
    Regroup([s[0]], a, r);
    assert Surrounded(s, [s[0]] + a, r, b);
  }

  lemma StripBack(s: string, r: string)
    requires s != "" && IsBlank(s[|s| - 1]) && Stripped(s[..|s| - 1], r)
    ensures Stripped(s, r)
  {
    hide IsBlank;
    var n := |s| - 1;
    var a, b :| Surrounded(s[..n], a, r, b);
    assert s == s[..n] + [s[n]];
    Regroup(a + r, b, [s[n]]);
    assert Surrounded(s, a, r, b + [s[n]]);
  }

  lemma {:induction false} TrimStrips(s: string)
    ensures Stripped(s, Trim(s))
    decreases |s|
  {
    hide IsBlank;
    if s == "" {
      assert Surrounded(s, "", "", "");
    } else if IsBlank(s[0]) {
      TrimStrips(s[1..]);
      StripFront(s, Trim(s));
    } else if IsBlank(s[|s| - 1]) {
      TrimStrips(s[..|s| - 1]);
      StripBack(s, Trim(s));
    } else {
      assert "" + s + "" == s;
      assert Surrounded(s, "", s, "");
    }
  }

  /** A word is what `WordLength` finds before a character that is none of its own. */
  lemma WordAtStart(w: string, rest: string)
    requires (forall c | c in w :: IsAlnum(c)) && (rest == "" || !IsAlnum(rest[0]))
    ensures WordLength(w + rest) == |w| && (w + rest)[..|w|] == w && (w + rest)[|w|..] == rest
  {
    hide IsAlnum, WordLength;
    var s, n := w + rest, WordLength(w + rest);
    assert forall i | 0 <= i < |w| :: s[i] == w[i] && w[i] in w;
    assert rest != "" ==> s[|w|] == rest[0];
    assert n == |w|;
  }

  lemma TaggedFiled(line: string, c: string, t: string, m: string)
    requires TaggedLine(line, c, t, m)
    ensures Classify(line) == Entry(c + "/" + t, Trim(m))
  {
    hide Trim, IsAlnum, WordLength;
    Separators();
    var behind := t + ([':'] + m);
    WordAtStart(c, ['/'] + behind);
    assert (['/'] + behind)[1..] == behind;
    WordAtStart(t, [':'] + m);
    assert ([':'] + m)[1..] == m;
  }

  lemma CategoryFiled(line: string, c: string, m: string)
    requires CategoryLine(line, c, m)
    ensures Classify(line) == Entry(c, Trim(m))
  {
    hide Trim, IsAlnum, WordLength;
    Separators();
    WordAtStart(c, [':'] + m);
    assert ([':'] + m)[1..] == m;
  }

  lemma Separators()
    ensures !IsAlnum('/') && !IsAlnum(':')
  {
  }

  predicate LooksTagged(line: string) {
    var n := WordLength(line);
    && 0 < n < |line| && line[n] == '/'
    && var u := line[n..][1..];
       var k := WordLength(u);
       0 < k && |u[k..]| > 1 && u[k..][0] == ':'
  }

  predicate LooksCategorised(line: string) {
    var n := WordLength(line);
    0 < n < |line| - 1 && line[n] == ':'
  }

  lemma TaggedFound(line: string)
    requires LooksTagged(line)
    ensures exists c, t, m :: TaggedLine(line, c, t, m)
  {
    hide WordLength, IsWord, TaggedLine;
    var n := WordLength(line);
    WordPrefix(line);
    assert line[n..][1..] == line[n + 1..];
    var u := line[n + 1..];
    WordPrefix(u);
    TaggedAt(line, n, u, WordLength(u));
  }

  lemma TaggedAt(line: string, n: nat, u: string, k: nat)
    requires 0 < n < |line| && line[n] == '/' && IsWord(line[..n]) && u == line[n + 1..]
    requires 0 < k < |u| - 1 && u[k] == ':' && IsWord(u[..k])
    ensures TaggedLine(line, line[..n], u[..k], u[k + 1..])
  {
    hide IsWord;
    assert line == line[..n] + (['/'] + u);
    assert u == u[..k] + ([':'] + u[k + 1..]);
  }

  lemma CategoryFound(line: string)
    requires LooksCategorised(line)
    ensures exists c, m :: CategoryLine(line, c, m)
  {
    hide WordLength, IsWord;
    var n := WordLength(line);
    WordPrefix(line);
    var c, rest := line[..n], line[n..];
    Uncons(rest);
    assert line == c + rest;
    assert CategoryLine(line, c, rest[1..]);
  }

  /** Any other line is kept whole. */
  lemma OtherFiled(line: string)
    requires !LooksTagged(line) && !LooksCategorised(line)
    ensures Classify(line) == Entry("_Misc", Trim(line))
  {
    hide Trim, WordLength;
    var n := WordLength(line);
    assert line[n..] != "" ==> line[n..][0] == line[n];
  }

  lemma ClassifyExactly(line: string)
    ensures FiledAs(line, Classify(line))
  {
    hide Classify, TaggedLine, CategoryLine, Stripped, Trim, LooksTagged, LooksCategorised;
    forall c, t, m | TaggedLine(line, c, t, m)
      ensures Classify(line).key == c + "/" + t && Stripped(m, Classify(line).message)
    {
      TaggedFiled(line, c, t, m);
      TrimStrips(m);
    }
    forall c, m | CategoryLine(line, c, m)
      ensures Classify(line).key == c && Stripped(m, Classify(line).message)
    {
      CategoryFiled(line, c, m);
      TrimStrips(m);
    }
    if LooksTagged(line) {
      TaggedFound(line);
    } else if LooksCategorised(line) {
      CategoryFound(line);
    } else {
      OtherFiled(line);
      TrimStrips(line);
    }
  }

  /** All entries are filed as their lines. */
  ghost predicate AllFiled(lines: seq<string>, entries: seq<Entry>) {
    |entries| == |lines| && forall i | 0 <= i < |lines| :: FiledAs(lines[i], entries[i])
  }

  lemma ClassifiedFiled(lines: seq<string>)
    ensures AllFiled(lines, Classified(lines))
  {
    hide FiledAs, Classify;
    forall i | 0 <= i < |lines| ensures FiledAs(lines[i], Classified(lines)[i]) { ClassifyExactly(lines[i]); }
  }

  // ----- grouping -----

  type Groups = map<string, seq<string>>

  function Messages(entries: seq<Entry>, key: string): seq<string> {
    if entries == [] then []
    else Messages(entries[..|entries| - 1], key)
         + (if entries[|entries| - 1].key == key then [entries[|entries| - 1].message] else [])
  }

  /** The groups hold exactly the entries: the messages of a key in their order, and no other keys. */
  ghost predicate Holds(g: Groups, entries: seq<Entry>) {
    && (forall k | k in g :: g[k] == Messages(entries, k) && g[k] != [])
    && (forall k | k !in g :: Messages(entries, k) == [])
  }

  function Classified(lines: seq<string>): seq<Entry> {
    seq(|lines|, i requires 0 <= i < |lines| => Classify(lines[i]))
  }

  lemma GroupStep(g: Groups, entries: seq<Entry>, e: Entry)
    requires Holds(g, entries)
    ensures Holds(g[e.key := (if e.key in g then g[e.key] else []) + [e.message]], entries + [e])
  {
    forall k
      ensures Messages(entries + [e], k) == Messages(entries, k) + if e.key == k then [e.message] else []
    {
      assert (entries + [e])[..|entries|] == entries;
    }
  }

  method Group(lines: seq<string>) returns (meta: Groups)
    ensures Holds(meta, Classified(lines))
    ensures AllFiled(lines, Classified(lines))
    ensures forall k | k in meta :: ValidKey(k)
  {
    ClassifiedFiled(lines);
    hide Classify, ValidKey, AllFiled;
    meta := map[];
    ghost var entries := Classified(lines);
    for i := 0 to |lines|
      invariant Holds(meta, entries[..i])
      invariant forall k | k in meta :: ValidKey(k)
    {
      var e := Classify(lines[i]);
      ClassifyValid(lines[i]);
      assert entries[..i] + [e] == entries[..i + 1];
      GroupStep(meta, entries[..i], e);
      if e.key !in meta {
        meta := meta[e.key := []];
      }
      meta := meta[e.key := meta[e.key] + [e.message]];
    }
    assert entries[..|lines|] == entries;
  }

  // ----- the report -----

  datatype Item = Item(key: string, changes: seq<string>)

  function Display(key: string): string { if key == MISC then "Misc" else key }

  function CategoryOf(tag: string): string { Split(tag, '/')[0] }

  function Changes(changes: seq<string>, tagged: bool): seq<string> {
    if changes == [] then [] else [(if tagged then "  - " else " - ") + changes[0]] + Changes(changes[1..], tagged)
  }

  /** What the variables `Category` and `Tag` are when an item is reached, and are after it. */
  datatype Printer = Printer(category: string, tag: string)

  function AfterCategory(p: Printer, tag: string): Printer {
    if CategoryOf(tag) != p.category then Printer(CategoryOf(tag), "") else p
  }

  function AfterItem(p: Printer, tag: string): Printer {
    var q := AfterCategory(p, tag);
    if q.tag != tag && tag != CategoryOf(tag) then q.(tag := tag) else q
  }

  predicate NamesTag(tag: string) { tag != CategoryOf(tag) ==> |Split(tag, '/')| > 1 }

  function ItemLines(p: Printer, item: Item): seq<string>
    requires NamesTag(Display(item.key))
  {
    var tag := Display(item.key);
    var q := AfterCategory(p, tag);
    (if CategoryOf(tag) != p.category then ["", "- " + CategoryOf(tag)] else [])
    + (if q.tag != tag && tag != CategoryOf(tag) then ["", " - " + Split(tag, '/')[1]] else [])
    + Changes(item.changes, AfterItem(p, tag).tag != "")
  }

  function Report(p: Printer, items: seq<Item>): seq<string>
    requires forall i | 0 <= i < |items| :: NamesTag(Display(items[i].key))
    decreases |items|
  {
    if items == [] then [] else ItemLines(p, items[0]) + Report(AfterItem(p, Display(items[0].key)), items[1..])
  }

  lemma {:induction false} ChangesSnoc(changes: seq<string>, c: string, tagged: bool)
    ensures Changes(changes + [c], tagged) == Changes(changes, tagged) + [(if tagged then "  - " else " - ") + c]
  {
    if changes == [] {
      assert changes + [c] == [c] && [c][1..] == [];
    } else {
      assert (changes + [c])[1..] == changes[1..] + [c];
      ChangesSnoc(changes[1..], c, tagged);
    }
  }

  method PrintChanges(changes: seq<string>, tagged: bool) returns (out: seq<string>)
    ensures out == Changes(changes, tagged)
  {
    out := [];
    for i := 0 to |changes|
      invariant out == Changes(changes[..i], tagged)
    {
      ChangesSnoc(changes[..i], changes[i], tagged);
      assert changes[..i] + [changes[i]] == changes[..i + 1];
      if tagged { out := out + ["  - " + changes[i]]; } else { out := out + [" - " + changes[i]]; }
    }
    assert changes[..|changes|] == changes;
  }

  method PrintItem(category: string, tag: string, item: Item)
    returns (out: seq<string>, category': string, tag': string)
    requires NamesTag(Display(item.key))
    ensures out == ItemLines(Printer(category, tag), item)
    ensures Printer(category', tag') == AfterItem(Printer(category, tag), Display(item.key))
  {
    out, category', tag' := [], category, tag;
    var name := Display(item.key);
    var parts := Split(name, '/');
    if parts[0] != category' {
      category', tag' := parts[0], "";
      out := out + ["", "- " + parts[0]];
    }
    if tag' != name && name != parts[0] {
      tag' := name;
      out := out + ["", " - " + parts[1]];
    }
    var changes := PrintChanges(item.changes, tag' != "");
    out := out + changes;
  }

  lemma ReportStep(p: Printer, items: seq<Item>, i: nat, out: seq<string>)
    requires i < |items| && forall i | 0 <= i < |items| :: NamesTag(Display(items[i].key))
    ensures out + Report(p, items[i..])
            == out + ItemLines(p, items[i]) + Report(AfterItem(p, Display(items[i].key)), items[i + 1..])
  {
    hide ItemLines, AfterItem, NamesTag, Display;
    assert items[i..][0] == items[i] && items[i..][1..] == items[i + 1..];
    var x, y := ItemLines(p, items[i]), Report(AfterItem(p, Display(items[i].key)), items[i + 1..]);
    assert Report(p, items[i..]) == x + y;
    assert out + x + y == out + (x + y);
  }

  lemma ReportEnds(p: Printer, out: seq<string>)
    ensures out + Report(p, []) == out
  {
  }

  /** The printing loop. */
  method PrintReport(items: seq<Item>) returns (out: seq<string>)
    requires forall i | 0 <= i < |items| :: NamesTag(Display(items[i].key))
    ensures out == Report(Printer("", ""), items)
  {
    hide Report, ItemLines, AfterItem, Split, Display, CategoryOf;
    out := [];
    var category, tag := "", "";
    assert items[0..] == items;
    assert out + Report(Printer("", ""), items) == Report(Printer("", ""), items);
    for i := 0 to |items|
      invariant out + Report(Printer(category, tag), items[i..]) == Report(Printer("", ""), items)
    {
      ReportStep(Printer(category, tag), items, i, out);
      var lines;
      lines, category, tag := PrintItem(category, tag, items[i]);
      out := out + lines;
    }
    ReportEnds(Printer(category, tag), out);
    assert items[|items|..] == [];
  }
}
