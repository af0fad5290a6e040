/** The generator of syscall enums: tables per architecture, and the enum of the numbers they all share. */
module SyscallEnums {
  import opened Options
  import opened Texts

  datatype Definition = Definition(arch: string, number: string, abi: string, name: string, entry: string)

  /** A line of a syscall table, split into words. */
  type Row = seq<string>

  predicate IsComment(row: Row) {
    row == [] || "#" <= row[0]
  }

  /** The words that are looked at are there: number and ABI, and the name unless the ABI is ignored. */
  predicate RowOk(row: Row, ignored: seq<string>) {
    IsComment(row) || (|row| >= 2 && (row[1] in ignored || |row| >= 3))
  }

  predicate WellFormedTable(rows: seq<Row>, ignored: seq<string>) {
    forall i | 0 <= i < |rows| :: RowOk(rows[i], ignored)
  }

  /** The number of rows before the first one that raises an exception. */
  function Readable(rows: seq<Row>, ignored: seq<string>): (n: nat)
    ensures n <= |rows| && WellFormedTable(rows[..n], ignored)
    ensures n < |rows| ==> !RowOk(rows[n], ignored)
  {
    if rows == [] || !RowOk(rows[0], ignored) then 0
    else
      var n := 1 + Readable(rows[1..], ignored);
      assert forall i | 0 < i < n :: rows[..n][i] == rows[1..][..n - 1][i - 1];
      n
  }

  function Renamed(name: string): string {
    if name == "pread64" then "pread_64"
    else if name == "pwrite64" then "pwrite_64"
    else if name == "prlimit64" then "prlimit_64"
    else name
  }

  const NO_ENTRY := "<None>"

  function RowDefinition(arch: string, row: Row): Definition
    requires |row| >= 3
  {
    Definition(arch, row[0], row[1], Renamed(row[2]), if |row| < 4 then NO_ENTRY else row[3])
  }

  function TableDefinitions(arch: string, rows: seq<Row>, ignored: seq<string>): seq<Definition>
    requires WellFormedTable(rows, ignored)
  {
    if rows == [] then []
    else
      var rest := TableDefinitions(arch, rows[1..], ignored);
      if IsComment(rows[0]) || rows[0][1] in ignored then rest else [RowDefinition(arch, rows[0])] + rest
  }

  // ----- the definitions and the words of their rows -----

  /** Comments and rows of an ignored ABI are skipped. */
  predicate Skipped(row: Row, ignored: seq<string>) {
    row == [] || "#" <= row[0] || (|row| > 1 && row[1] in ignored)
  }

  function KeptRows(rows: seq<Row>, ignored: seq<string>): seq<Row> {
    if rows == [] then [] else (if Skipped(rows[0], ignored) then [] else [rows[0]]) + KeptRows(rows[1..], ignored)
  }

  /** Three names would clash with others and get an underscore. */
  predicate NamedAfter(name: string, word: string) {
    && (word == "pread64" ==> name == "pread_64")
    && (word == "pwrite64" ==> name == "pwrite_64")
    && (word == "prlimit64" ==> name == "prlimit_64")
    && (word != "pread64" && word != "pwrite64" && word != "prlimit64" ==> name == word)
  }

  predicate ReadFrom(d: Definition, arch: string, row: Row) {
    && |row| >= 3
    && d.arch == arch && d.number == row[0] && d.abi == row[1] && NamedAfter(d.name, row[2])
    && d.entry == if |row| > 3 then row[3] else "<None>"
  }

  /** One definition for each row, in order. */
  predicate DefinitionsOf(defs: seq<Definition>, arch: string, rows: seq<Row>) {
    |defs| == |rows| && forall i | 0 <= i < |rows| :: ReadFrom(defs[i], arch, rows[i])
  }

  lemma {:induction false} TableRead(arch: string, rows: seq<Row>, ignored: seq<string>)
    requires WellFormedTable(rows, ignored)
    ensures DefinitionsOf(TableDefinitions(arch, rows, ignored), arch, KeptRows(rows, ignored))
  {
    if rows != [] {
      assert RowOk(rows[0], ignored);
      TableRead(arch, rows[1..], ignored);
      if !Skipped(rows[0], ignored) { assert ReadFrom(RowDefinition(arch, rows[0]), arch, rows[0]); }
    }
  }

  /** The definitions of `name`, in order. */
  function Called(defs: seq<Definition>, name: string): seq<Definition> {
    if defs == [] then [] else (if defs[0].name == name then [defs[0]] else []) + Called(defs[1..], name)
  }

  lemma {:induction false} CalledConcat(a: seq<Definition>, b: seq<Definition>, name: string)
    ensures Called(a + b, name) == Called(a, name) + Called(b, name)
  {
    if a == [] {
      assert a + b == b;
    } else {
      assert (a + b)[1..] == a[1..] + b;
      CalledConcat(a[1..], b, name);
      var head := if a[0].name == name then [a[0]] else [];
      assert Called(a + b, name) == head + (Called(a[1..], name) + Called(b, name));
    }
  }

  lemma {:induction false} TableSnoc(arch: string, rows: seq<Row>, row: Row, ignored: seq<string>)
    requires WellFormedTable(rows, ignored) && RowOk(row, ignored)
    ensures WellFormedTable(rows + [row], ignored)
    ensures TableDefinitions(arch, rows + [row], ignored)
            == TableDefinitions(arch, rows, ignored)
               + (if IsComment(row) || row[1] in ignored then [] else [RowDefinition(arch, row)])
  {
    hide Renamed, RowDefinition;
    if rows == [] {
      assert rows + [row] == [row] && [row][1..] == [];
    } else {
      assert (rows + [row])[1..] == rows[1..] + [row];
      TableSnoc(arch, rows[1..], row, ignored);
    }
  }

  type ByName = map<string, seq<Definition>>

  /** `filed` holds exactly the definitions `all`, by name. */
  ghost predicate Filed(filed: ByName, all: seq<Definition>) {
    && (forall n | n in filed :: filed[n] == Called(all, n))
    && (forall n | n !in filed :: Called(all, n) == [])
  }

  function File(filed: ByName, d: Definition): ByName {
    filed[d.name := (if d.name in filed then filed[d.name] else []) + [d]]
  }

  lemma CalledOne(all: seq<Definition>, d: Definition, n: string)
    ensures Called(all + [d], n) == if d.name == n then Called(all, n) + [d] else Called(all, n)
  {
    CalledConcat(all, [d], n);
    assert [d][1..] == [];
    assert Called([d], n) == if d.name == n then [d] else [];
  }

  lemma FileKeeps(filed: ByName, all: seq<Definition>, d: Definition)
    requires Filed(filed, all)
    ensures Filed(File(filed, d), all + [d])
  {
    forall n
      ensures n in File(filed, d) ==> File(filed, d)[n] == Called(all + [d], n)
      ensures n !in File(filed, d) ==> Called(all + [d], n) == []
    {
      CalledOne(all, d, n);
    }
  }

  /** The global bookkeeping of the parser. */
  class Tables {
    var numArches: nat
    var definitions: ByName

    ghost predicate Files(all: seq<Definition>)
      reads this
    {
      Filed(definitions, all)
    }

    constructor ()
      ensures numArches == 0 && Files([])
    {
      numArches, definitions := 0, map[];
    }

    method Add(d: Definition, ghost all: seq<Definition>)
      requires Files(all)
      modifies this`definitions
      ensures definitions == File(old(definitions), d) && Files(all + [d])
    {
      FileKeeps(definitions, all, d);
      ghost var before := definitions;
      if d.name !in definitions {
        definitions := definitions[d.name := []];
      }
      definitions := definitions[d.name := definitions[d.name] + [d]];
      assert definitions == File(before, d);
    }

    /** `ParseArchSyscalls`; not `ok` is the exception on a row with too few words. */
    method ParseArchSyscalls(arch: string, rows: seq<Row>, ignored: seq<string>, ghost all: seq<Definition>)
      returns (defs: seq<Definition>, ok: bool)
      requires Files(all)
      modifies this
      ensures ok <==> WellFormedTable(rows, ignored)
      ensures defs == TableDefinitions(arch, rows[..Readable(rows, ignored)], ignored)
      ensures ok ==> defs == TableDefinitions(arch, rows, ignored)
      ensures DefinitionsOf(defs, arch, KeptRows(rows[..Readable(rows, ignored)], ignored))
      ensures ok ==> DefinitionsOf(defs, arch, KeptRows(rows, ignored))
      ensures Files(all + defs) && numArches == old(numArches) + 1
    {
      hide TableDefinitions, Renamed, Called, Filed, KeptRows, DefinitionsOf;
      numArches := numArches + 1;
      defs := [];
      assert all + [] == all;
      TableEmpty(arch, ignored);
      for i := 0 to |rows|
        invariant WellFormedTable(rows[..i], ignored)
        invariant defs == TableDefinitions(arch, rows[..i], ignored)
        invariant Files(all + defs) && numArches == old(numArches) + 1
      {
        if |rows[i]| < 2 && !IsComment(rows[i]) {
          ReadableIs(rows, ignored, i);
          TableRead(arch, rows[..i], ignored);
          return defs, false;
        }
        if !IsComment(rows[i]) && rows[i][1] !in ignored && |rows[i]| < 3 {
          ReadableIs(rows, ignored, i);
          TableRead(arch, rows[..i], ignored);
          return defs, false;
        }
        TableSnoc(arch, rows[..i], rows[i], ignored);
        assert rows[..i] + [rows[i]] == rows[..i + 1];
        if !IsComment(rows[i]) && rows[i][1] !in ignored {
          var d := RowDefinition(arch, rows[i]);
          Add(d, all + defs);
          assert all + defs + [d] == all + (defs + [d]);
          defs := defs + [d];
        }
      }
      assert rows[..|rows|] == rows;
      TableRead(arch, rows, ignored);
      ReadableAll(rows, ignored);
      return defs, true;
    }

    /** `ParseCommonArchSyscalls`; not `ok` is the exception on an entry whose number was not defined. */
    method ParseCommonArchSyscalls(arch: string, lines: seq<HeaderLine>, ghost all: seq<Definition>)
      returns (defs: seq<Definition>, ok: bool)
      requires Files(all)
      modifies this
      ensures ok <==> Numbered(lines)
      ensures ok ==> defs == HeaderDefinitions(arch, lines) && EntriesOf(defs, arch, lines)
      ensures Files(all + defs) && numArches == old(numArches) + 1
    {
      hide Called, Filed, Renamed, EntriesOf;
      numArches := numArches + 1;
      var numbers: map<string, string> := map[];
      defs := [];
      assert all + [] == all;
      for i := 0 to |lines|
        invariant Numbered(lines[..i])
        invariant defs == HeaderDefinitions(arch, lines[..i])
        invariant forall n :: (n in numbers <==> LastNumber(lines[..i], n).Some?)
                              && (n in numbers ==> LastNumber(lines[..i], n) == Some(numbers[n]))
        invariant Files(all + defs) && numArches == old(numArches) + 1
      {
        LastNumberStep(lines, i);
        match lines[i] {
          case Define(name, number) => numbers := numbers[name := number];
          case Entry(name, entry) =>
            if name !in numbers {
              NotNumbered(lines, i);
              return defs, false;
            }
            var d := Definition(arch, numbers[name], arch, Renamed(name), entry);
            Add(d, all + defs);
            assert all + defs + [d] == all + (defs + [d]);
            defs := defs + [d];
          case Other =>
        }
      }
      assert lines[..|lines|] == lines;
      HeaderRead(arch, lines);
      return defs, true;
    }
  }

  lemma ReadableAll(rows: seq<Row>, ignored: seq<string>)
    requires WellFormedTable(rows, ignored)
    ensures rows[..Readable(rows, ignored)] == rows
  {
  }

  lemma TableEmpty(arch: string, ignored: seq<string>)
    ensures TableDefinitions(arch, [], ignored) == []
  {
  }

  lemma ReadableIs(rows: seq<Row>, ignored: seq<string>, i: nat)
    requires i < |rows| && WellFormedTable(rows[..i], ignored) && !RowOk(rows[i], ignored)
    ensures Readable(rows, ignored) == i && !WellFormedTable(rows, ignored)
  {
    var n := Readable(rows, ignored);
    assert forall j | 0 <= j < i :: rows[..i][j] == rows[j];
    assert forall j | 0 <= j < n :: rows[..n][j] == rows[j];
  }

  // ----- the header of the generic architecture -----

  /** A line of the header: the number of a name, an entry of the table, or anything else. */
  datatype HeaderLine = Define(name: string, number: string) | Entry(name: string, entry: string) | Other

  /** The number a name was given last. */
  function LastNumber(lines: seq<HeaderLine>, name: string): Option<string> {
    if lines == [] then None
    else
      var last := lines[|lines| - 1];
      if last.Define? && last.name == name then Some(last.number) else LastNumber(lines[..|lines| - 1], name)
  }

  /** Every entry's name was given a number before it. */
  predicate Numbered(lines: seq<HeaderLine>) {
    forall i | 0 <= i < |lines| && lines[i].Entry? :: LastNumber(lines[..i], lines[i].name).Some?
  }

  function HeaderDefinitions(arch: string, lines: seq<HeaderLine>): seq<Definition>
    requires Numbered(lines)
  {
    if lines == [] then []
    else
      var n := |lines| - 1;
      assert forall i | 0 <= i < n :: lines[..n][i] == lines[i] && lines[..n][..i] == lines[..i];
      var before := HeaderDefinitions(arch, lines[..n]);
      if lines[n].Entry?
      then before + [Definition(arch, LastNumber(lines[..n], lines[n].name).value, arch, Renamed(lines[n].name),
          lines[n].entry)]
      else before
  }

  /** The positions of the entries. */
  function EntryPositions(lines: seq<HeaderLine>): seq<nat> {
    if lines == [] then []
    else
      var n := |lines| - 1;
      EntryPositions(lines[..n]) + (if lines[n].Entry? then [n] else [])
  }

  /** The definition of the entry at position `p`: its number is the one its name was given last. */
  predicate EntryReadFrom(d: Definition, arch: string, lines: seq<HeaderLine>, p: nat) {
    && p < |lines| && lines[p].Entry?
    && d.arch == arch && d.abi == arch && NamedAfter(d.name, lines[p].name) && d.entry == lines[p].entry
    && LastNumber(lines[..p], lines[p].name) == Some(d.number)
  }

  predicate EntriesOf(defs: seq<Definition>, arch: string, lines: seq<HeaderLine>) {
    && |defs| == |EntryPositions(lines)|
    && forall i | 0 <= i < |defs| :: EntryReadFrom(defs[i], arch, lines, EntryPositions(lines)[i])
  }

  lemma {:induction false} HeaderRead(arch: string, lines: seq<HeaderLine>)
    requires Numbered(lines)
    ensures EntriesOf(HeaderDefinitions(arch, lines), arch, lines)
  {
    if lines != [] {
      var n := |lines| - 1;
      var before := lines[..n];
      assert forall i | 0 <= i < n :: before[i] == lines[i] && before[..i] == lines[..i];
      HeaderRead(arch, before);
      var defs, ps := HeaderDefinitions(arch, before), EntryPositions(before);
      forall i | 0 <= i < |defs|
        ensures EntryReadFrom(defs[i], arch, lines, ps[i])
      {
        assert EntryReadFrom(defs[i], arch, before, ps[i]);
      }
    }
  }

  lemma LastNumberStep(lines: seq<HeaderLine>, i: nat)
    requires i < |lines|
    ensures lines[..i + 1][..i] == lines[..i]
    ensures forall n :: LastNumber(lines[..i + 1], n)
                        == if lines[i].Define? && lines[i].name == n then Some(lines[i].number)
                            else LastNumber(lines[..i], n)
    ensures Numbered(lines[..i + 1])
            <==> Numbered(lines[..i]) && (lines[i].Entry? ==> LastNumber(lines[..i], lines[i].name).Some?)
  {
    var now, before := lines[..i + 1], lines[..i];
    assert |now| - 1 == i && now[..|now| - 1] == before && now[|now| - 1] == lines[i];
    var line := lines[i];
    assert forall n :: LastNumber(now, n)
                       == if line.Define? && line.name == n then Some(line.number) else LastNumber(before, n);
    assert forall j | 0 <= j < i :: now[j] == before[j] && now[..j] == before[..j];
    if Numbered(now) {
      forall j | 0 <= j < i && before[j].Entry?
        ensures LastNumber(before[..j], before[j].name).Some?
      {
        assert now[j].Entry?;
      }
    }
    if Numbered(before) && (lines[i].Entry? ==> LastNumber(before, lines[i].name).Some?) {
      forall j | 0 <= j < i + 1 && now[j].Entry?
        ensures LastNumber(now[..j], now[j].name).Some?
      {
        assert j < i ==> before[j].Entry?;
      }
    }
  }

  lemma NotNumbered(lines: seq<HeaderLine>, i: nat)
    requires i < |lines| && lines[i].Entry? && LastNumber(lines[..i], lines[i].name) == None
    ensures !Numbered(lines)
  {
  }

  // ----- one architecture's enum -----

  datatype Line = Value(name: string, number: string) | Missing(name: string)

  function Pow2(k: nat): nat { if k == 0 then 1 else 2 * Pow2(k - 1) }

  /** `int(math.log(n, 2))`, with an exact logarithm. */
  function Log2(n: nat): (k: nat)
    requires n > 0
    ensures Pow2(k) <= n < Pow2(k + 1)
  {
    if n == 1 then 0 else Log2(n / 2) + 1
  }

  function TableMax(n: nat): nat
    requires n > 0
  {
    Pow2(Log2(n) + 1)
  }

  lemma {:induction false} Pow2Monotone(j: nat, k: nat)
    requires j <= k
    ensures Pow2(j) <= Pow2(k)
    decreases k
  {
    if j < k { Pow2Monotone(j, k - 1); }
  }

  /** MAX is the least power of two above the number of definitions. */
  lemma TableMaxLeast(n: nat, k: nat)
    requires n > 0
    ensures TableMax(n) > n
    ensures Pow2(k) > n ==> Pow2(k) >= TableMax(n)
  {
    if k <= Log2(n) { Pow2Monotone(k, Log2(n)); } else { Pow2Monotone(Log2(n) + 1, k); }
  }

  predicate NamedIn(defs: seq<Definition>, name: string) {
    exists i | 0 <= i < |defs| :: defs[i].name == name
  }

  predicate NamedInAny(lists: seq<seq<Definition>>, name: string) {
    exists i | 0 <= i < |lists| :: NamedIn(lists[i], name)
  }

  /**
   `ExportSyscallDefines`: the table's own definitions, MAX, and once each the names of the other tables that it
   lacks. An empty table raises an exception in the logarithm.
   */
  method ExportSyscallDefines(defs: seq<Definition>, others: seq<seq<Definition>>)
    returns (r: Option<(seq<Line>, nat, seq<string>)>)
    ensures r.Some? <==> defs != []
    ensures r.Some? ==>
              var (values, max, missing) := r.value;
              && |values| == |defs| && (forall i | 0 <= i < |defs| :: values[i] == Value(defs[i].name, defs[i].number))
              && max == TableMax(|defs|)
              && Distinct(missing)
              && forall n :: n in missing <==> NamedInAny(others, n) && !NamedIn(defs, n)
  {
    var exported, values := [], [];
    for i := 0 to |defs|
      invariant |values| == i && forall j | 0 <= j < i :: values[j] == Value(defs[j].name, defs[j].number)
      invariant |exported| == i && forall j | 0 <= j < i :: exported[j] == defs[j].name
    {
      values := values + [Value(defs[i].name, defs[i].number)];
      exported := exported + [defs[i].name];
    }
    if defs == [] {
      return None;
    }
    ghost var own := exported;
    assert forall n :: n in own <==> NamedIn(defs, n);
    var missing := [];
    for i := 0 to |others|
      invariant exported == own + missing && Distinct(missing)
      invariant forall n :: n in missing <==> n !in own && exists k | 0 <= k < i :: NamedIn(others[k], n)
    {
      ghost var before := missing;
      for j := 0 to |others[i]|
        invariant exported == own + missing && Distinct(missing)
        invariant forall n :: n in missing
                              <==> n in before || (n !in own && exists k | 0 <= k < j :: others[i][k].name == n)
      {
        if others[i][j].name !in exported {
          missing := missing + [others[i][j].name];
          exported := exported + [others[i][j].name];
        }
      }
    }
    return Some((values, TableMax(|defs|), missing));
  }

  // ----- the common enum -----

  predicate SameNumber(defs: seq<Definition>, number: string) {
    forall i | 0 <= i < |defs| :: defs[i].number == number
  }

  /**
   A definition of the last table is common if it has as many definitions as there are tables, all with its
   number.
   */
  predicate Exported(all: seq<Definition>, arches: nat, d: Definition) {
    |Called(all, d.name)| == arches && SameNumber(Called(all, d.name), d.number)
  }

  function Common(all: seq<Definition>, arches: nat, defs: seq<Definition>): seq<Line> {
    if defs == [] then []
    else
      (if Exported(all, arches, defs[0]) then [Value(defs[0].name, defs[0].number)] else [])
      + Common(all, arches, defs[1..])
  }

  method AllHaveNumber(defs: seq<Definition>, number: string) returns (matches: bool)
    ensures matches <==> SameNumber(defs, number)
  {
    matches := true;
    for i := 0 to |defs|
      invariant matches <==> SameNumber(defs[..i], number)
    {
      if defs[i].number != number { matches := false; }
    }
    assert defs[..|defs|] == defs;
  }

  method IsCommon(t: Tables, d: Definition, ghost all: seq<Definition>) returns (common: bool)
    requires t.Files(all) && t.numArches > 0
    ensures common <==> Exported(all, t.numArches, d)
  {
    if d.name !in t.definitions || |t.definitions[d.name]| != t.numArches {
      return false;
    }
    common := AllHaveNumber(t.definitions[d.name], d.number);
  }

  lemma CommonEmpty(all: seq<Definition>, arches: nat, lines: seq<Line>)
    ensures lines + Common(all, arches, []) == lines
  {
  }

  lemma CommonStep(all: seq<Definition>, arches: nat, defs: seq<Definition>, i: nat, lines: seq<Line>)
    requires i < |defs|
    ensures lines + Common(all, arches, defs[i..])
            == (if Exported(all, arches, defs[i]) then lines + [Value(defs[i].name, defs[i].number)] else lines)
               + Common(all, arches, defs[i + 1..])
  {
    hide Exported;
    assert defs[i] == defs[i..][0] && defs[i..][1..] == defs[i + 1..];
    var x := if Exported(all, arches, defs[i]) then [Value(defs[i].name, defs[i].number)] else [];
    var y := Common(all, arches, defs[i + 1..]);
    assert Common(all, arches, defs[i..]) == x + y;
    assert lines + (x + y) == lines + x + y;
  }

  method ExportCommon(t: Tables, defs: seq<Definition>, ghost all: seq<Definition>) returns (lines: seq<Line>)
    requires t.Files(all) && t.numArches > 0
    ensures lines == Common(all, t.numArches, defs)
  {
    hide Common, Exported, Filed;
    lines := [];
    assert defs[0..] == defs;
    assert lines + Common(all, t.numArches, defs) == Common(all, t.numArches, defs);
    for i := 0 to |defs|
      invariant lines + Common(all, t.numArches, defs[i..]) == Common(all, t.numArches, defs)
    {
      CommonStep(all, t.numArches, defs, i, lines);
      var common := IsCommon(t, defs[i], all);
      if common {
        lines := lines + [Value(defs[i].name, defs[i].number)];
      }
    }
    assert defs[|defs|..] == [];
    CommonEmpty(all, t.numArches, lines);
  }

  // ----- common means: in every table, with the same number -----

  /** Names are unique in a table. */
  predicate NoRepeatedName(defs: seq<Definition>) {
    forall i, j | 0 <= i < j < |defs| :: defs[i].name != defs[j].name
  }

  predicate HasEntry(defs: seq<Definition>, name: string, number: string) {
    exists i | 0 <= i < |defs| :: defs[i].name == name && defs[i].number == number
  }

  lemma {:induction false} EntryIsCalled(defs: seq<Definition>, name: string, number: string)
    ensures HasEntry(defs, name, number)
            <==> exists i | 0 <= i < |Called(defs, name)| :: Called(defs, name)[i].number == number
  {
    if defs != [] {
      var rest := defs[1..];
      EntryIsCalled(rest, name, number);
      var head := if defs[0].name == name then [defs[0]] else [];
      assert Called(defs, name) == head + Called(rest, name);
      assert forall i | 0 <= i < |Called(rest, name)| ::
          (head + Called(rest, name))[|head| + i] == Called(rest, name)[i];
      if HasEntry(rest, name, number) {
        var i :| 0 <= i < |rest| && rest[i].name == name && rest[i].number == number;
        assert defs[i + 1] == rest[i];
        var j :| 0 <= j < |Called(rest, name)| && Called(rest, name)[j].number == number;
        assert Called(defs, name)[|head| + j].number == number;
      } else {
        assert HasEntry(defs, name, number) <==> defs[0].name == name && defs[0].number == number;
        if defs[0].name == name && defs[0].number == number { assert Called(defs, name)[0] == defs[0]; }
      }
    }
  }

  lemma {:induction false} CalledUnique(defs: seq<Definition>, name: string)
    requires NoRepeatedName(defs)
    ensures |Called(defs, name)| <= 1
  {
    if defs != [] {
      CalledUnique(defs[1..], name);
      if defs[0].name == name { NotCalled(defs[1..], name); }
    }
  }

  lemma {:induction false} NotCalled(defs: seq<Definition>, name: string)
    requires forall i | 0 <= i < |defs| :: defs[i].name != name
    ensures Called(defs, name) == []
  {
    if defs != [] { NotCalled(defs[1..], name); }
  }

  predicate InAll(x86: seq<Definition>, x64: seq<Definition>, arm: seq<Definition>, name: string, number: string) {
    HasEntry(x86, name, number) && HasEntry(x64, name, number) && HasEntry(arm, name, number)
  }

  /**
   The count of definitions misleads: a table repeats the name, and makes up for one that lacks it, or takes the
   count beyond the number of tables.
   */
  predicate CountMisleads(x86: seq<Definition>, x64: seq<Definition>, arm: seq<Definition>, name: string,
      number: string) {
    var a, b, c := Called(x86, name), Called(x64, name), Called(arm, name);
    || (|a| + |b| + |c| == 3 && (a == [] || b == []) && SameNumber(a, number) && SameNumber(b, number)
       && SameNumber(c, number))
    || (|a| + |b| + |c| > 3 && InAll(x86, x64, arm, name, number))
  }

  lemma SameNumberConcat(a: seq<Definition>, b: seq<Definition>, number: string)
    ensures SameNumber(a + b, number) <==> SameNumber(a, number) && SameNumber(b, number)
  {
    if SameNumber(a + b, number) {
      forall i | 0 <= i < |a| ensures a[i].number == number { assert (a + b)[i] == a[i]; }
      forall i | 0 <= i < |b| ensures b[i].number == number { assert (a + b)[|a| + i] == b[i]; }
    }
  }

  lemma ExportedByTables(x86: seq<Definition>, x64: seq<Definition>, arm: seq<Definition>, d: Definition)
    ensures var a, b, c := Called(x86, d.name), Called(x64, d.name), Called(arm, d.name);
            Exported(x86 + x64 + arm, 3, d)
            <==> |a| + |b| + |c| == 3 && SameNumber(a, d.number) && SameNumber(b, d.number) && SameNumber(c, d.number)
  {
    hide Called;
    var a, b, c := Called(x86, d.name), Called(x64, d.name), Called(arm, d.name);
    CalledConcat(x86 + x64, arm, d.name);
    CalledConcat(x86, x64, d.name);
    SameNumberConcat(a + b, c, d.number);
    SameNumberConcat(a, b, d.number);
  }

  /**
   For all tables: a definition is exported exactly when all three have its name with its number, unless the
   count misleads.
   */
  lemma ExportedExactly(x86: seq<Definition>, x64: seq<Definition>, arm: seq<Definition>, d: Definition)
    requires HasEntry(arm, d.name, d.number)
    ensures (Exported(x86 + x64 + arm, 3, d) <==> InAll(x86, x64, arm, d.name, d.number))
            <==> !CountMisleads(x86, x64, arm, d.name, d.number)
  {
    ExportedByTables(x86, x64, arm, d);
    EntryIsCalled(x86, d.name, d.number);
    EntryIsCalled(x64, d.name, d.number);
    EntryIsCalled(arm, d.name, d.number);
    hide Exported, HasEntry, Called;
    var a, b, c := Called(x86, d.name), Called(x64, d.name), Called(arm, d.name);
    assert |c| >= 1;
    if SameNumber(a, d.number) && a != [] { assert a[0].number == d.number; }
    if SameNumber(b, d.number) && b != [] { assert b[0].number == d.number; }
    if InAll(x86, x64, arm, d.name, d.number) { assert |a| >= 1 && |b| >= 1; }
  }

  /** Where names are unique the count never misleads. */
  lemma UniqueNamesNeverMislead(x86: seq<Definition>, x64: seq<Definition>, arm: seq<Definition>, name: string,
      number: string)
    requires NoRepeatedName(x86) && NoRepeatedName(x64) && NoRepeatedName(arm)
    ensures !CountMisleads(x86, x64, arm, name, number)
  {
    CalledUnique(x86, name);
    CalledUnique(x64, name);
    CalledUnique(arm, name);
  }

  lemma {:induction false} CommonFrom(all: seq<Definition>, arches: nat, defs: seq<Definition>, name: string,
      number: string)
    ensures Value(name, number) in Common(all, arches, defs)
            <==> exists i | 0 <= i < |defs| ::
                   defs[i].name == name && defs[i].number == number && Exported(all, arches, defs[i])
  {
    if defs != [] {
      var rest := defs[1..];
      CommonFrom(all, arches, rest, name, number);
      assert forall i | 0 <= i < |rest| :: rest[i] == defs[i + 1];
    }
  }

  /** The common enum is right about a name and number, for all tables, unless their count misleads. */
  lemma CommonEnumExact(x86: seq<Definition>, x64: seq<Definition>, arm: seq<Definition>, name: string, number: string)
    ensures (Value(name, number) in Common(x86 + x64 + arm, 3, arm) <==> InAll(x86, x64, arm, name, number))
            <==> !(HasEntry(arm, name, number) && CountMisleads(x86, x64, arm, name, number))
  {
    CommonFrom(x86 + x64 + arm, 3, arm, name, number);
    if HasEntry(arm, name, number) {
      var i :| 0 <= i < |arm| && arm[i].name == name && arm[i].number == number;
      ExportedExactly(x86, x64, arm, arm[i]);
      assert forall j | 0 <= j < |arm| && arm[j].name == name && arm[j].number == number ::
          Exported(x86 + x64 + arm, 3, arm[j]) == Exported(x86 + x64 + arm, 3, arm[i]);
    }
  }

  /** Three tables the script gets through: a name that one has twice and another lacks is exported as common. */
  lemma RepeatedNameMisleads(name: string, other: string, number: string)
    requires name != other
    ensures var d, e, f := Definition("x86", number, "i386", name, NO_ENTRY),
            Definition("x64", number, "common", other, NO_ENTRY),
                           Definition("Arm64", number, "Arm64", name, NO_ENTRY);
            Value(name, number) in Common([d, d] + [e] + [f], 3, [f]) && !HasEntry([e], name, number)
  {
    var d, e, f := Definition("x86", number, "i386", name, NO_ENTRY),
        Definition("x64", number, "common", other, NO_ENTRY),
                   Definition("Arm64", number, "Arm64", name, NO_ENTRY);
    assert Called([d, d], name) == [d, d] by {
      assert [d, d][1..] == [d] && [d][1..] == [];
      assert Called([d], name) == [d] + [];
    }
    assert Called([e], name) == [] by { assert [e][1..] == []; }
    assert Called([f], name) == [f] by { assert [f][1..] == []; }
    ExportedByTables([d, d], [e], [f], f);
    CommonFrom([d, d] + [e] + [f], 3, [f], name, number);
    assert [f][0].name == name && [f][0].number == number;
  }

  // ----- the whole script -----

  datatype Enum = Enum(values: seq<Line>, max: nat, missing: seq<string>)
  datatype Enums = Enums(x86: Enum, x64: Enum, arm: Enum, common: seq<Line>, max: nat)

  /** Every exported value has the name and the number, the first word, of its row. */
  predicate ValuesOf(values: seq<Line>, rows: seq<Row>) {
    && |values| == |rows|
    && forall i | 0 <= i < |rows| ::
         |rows[i]| >= 3 && values[i].Value? && values[i].number == rows[i][0] && NamedAfter(values[i].name, rows[i][2])
  }

  predicate EntryValuesOf(values: seq<Line>, lines: seq<HeaderLine>) {
    var ps := EntryPositions(lines);
    && |values| == |ps|
    && forall i | 0 <= i < |ps| ::
         && ps[i] < |lines| && lines[ps[i]].Entry? && values[i].Value? && NamedAfter(values[i].name, lines[ps[i]].name)
         && LastNumber(lines[..ps[i]], lines[ps[i]].name) == Some(values[i].number)
  }

  predicate Valued(values: seq<Line>, defs: seq<Definition>) {
    |values| == |defs| && forall i | 0 <= i < |defs| :: values[i] == Value(defs[i].name, defs[i].number)
  }

  lemma TableValues(values: seq<Line>, defs: seq<Definition>, arch: string, rows: seq<Row>)
    requires Valued(values, defs) && DefinitionsOf(defs, arch, rows)
    ensures ValuesOf(values, rows)
  {
    hide NamedAfter;
    forall i | 0 <= i < |rows|
      ensures |rows[i]| >= 3 && values[i].Value? && values[i].number == rows[i][0]
              && NamedAfter(values[i].name, rows[i][2])
    {
      assert ReadFrom(defs[i], arch, rows[i]);
    }
  }

  lemma EntryValues(values: seq<Line>, defs: seq<Definition>, arch: string, lines: seq<HeaderLine>)
    requires Valued(values, defs) && EntriesOf(defs, arch, lines)
    ensures EntryValuesOf(values, lines)
  {
    hide NamedAfter, LastNumber, EntryPositions;
    forall i | 0 <= i < |defs| ensures EntryReadFrom(defs[i], arch, lines, EntryPositions(lines)[i]) { }
  }

  /** The common values are those all three tables have, for all names and numbers whose count does not mislead. */
  ghost predicate CommonToAll(common: seq<Line>, x86: seq<Definition>, x64: seq<Definition>, arm: seq<Definition>) {
    forall name, number | !CountMisleads(x86, x64, arm, name, number) ::
      Value(name, number) in common <==> InAll(x86, x64, arm, name, number)
  }

  lemma CommonIsCommonToAll(x86: seq<Definition>, x64: seq<Definition>, arm: seq<Definition>)
    ensures CommonToAll(Common(x86 + x64 + arm, 3, arm), x86, x64, arm)
  {
    hide Common, InAll, CountMisleads;
    forall name, number | !CountMisleads(x86, x64, arm, name, number)
      ensures Value(name, number) in Common(x86 + x64 + arm, 3, arm) <==> InAll(x86, x64, arm, name, number)
    {
      CommonEnumExact(x86, x64, arm, name, number);
    }
  }

  /** One architecture's enum; `None` is the exception on an empty table. */
  method ExportTable(defs: seq<Definition>, others: seq<seq<Definition>>) returns (r: Option<Enum>)
    ensures r.Some? <==> defs != []
    ensures r.Some? ==>
              && Valued(r.value.values, defs) && r.value.max == TableMax(|defs|) && Distinct(r.value.missing)
              && forall n :: n in r.value.missing <==> NamedInAny(others, n) && !NamedIn(defs, n)
  {
    var e := ExportSyscallDefines(defs, others);
    match e {
      case None => return None;
      case Some((values, max, missing)) => return Some(Enum(values, max, missing));
    }
  }

  /** The script, from the rows and lines of the three sources to the enums; `None` is any exception. */
  method Generate(x86: seq<Row>, x64: seq<Row>, arm: seq<HeaderLine>)
    returns (r: Option<Enums>, ghost d86: seq<Definition>, ghost d64: seq<Definition>, ghost dArm: seq<Definition>)
    ensures r.Some? <==> && WellFormedTable(x86, []) && WellFormedTable(x64, ["x32"]) && Numbered(arm)
                         && KeptRows(x86, []) != [] && KeptRows(x64, ["x32"]) != [] && EntryPositions(arm) != []
    ensures r.Some? ==>
              && DefinitionsOf(d86, "x86", KeptRows(x86, [])) && DefinitionsOf(d64, "x64", KeptRows(x64, ["x32"]))
              && EntriesOf(dArm, "Arm64", arm)
              && ValuesOf(r.value.x86.values, KeptRows(x86, [])) && ValuesOf(r.value.x64.values, KeptRows(x64, ["x32"]))
              && EntryValuesOf(r.value.arm.values, arm)
              && CommonToAll(r.value.common, d86, d64, dArm)
              && r.value.max in [r.value.x86.max, r.value.x64.max, r.value.arm.max]
              && forall m | m in [r.value.x86.max, r.value.x64.max, r.value.arm.max] :: m <= r.value.max
  {
    hide KeptRows, EntryPositions, NamedAfter, TableDefinitions, HeaderDefinitions, Common, CommonToAll, CountMisleads,
      WellFormedTable, Numbered, ValuesOf, EntryValuesOf, Valued, Filed;
    var t := new Tables();
    var ok, a, b, c;
    d86, d64, dArm := [], [], [];
    a, ok := t.ParseArchSyscalls("x86", x86, [], []);
    if !ok { return None, d86, d64, dArm; }
    assert [] + a == a;
    b, ok := t.ParseArchSyscalls("x64", x64, ["x32"], a);
    if !ok { return None, d86, d64, dArm; }
    c, ok := t.ParseCommonArchSyscalls("Arm64", arm, a + b);
    if !ok { return None, d86, d64, dArm; }
    d86, d64, dArm := a, b, c;
    assert |a| == |KeptRows(x86, [])| && |b| == |KeptRows(x64, ["x32"])| && |c| == |EntryPositions(arm)|;
    var e86 := ExportTable(a, []);
    var e64 := ExportTable(b, [a]);
    var eArm := ExportTable(c, [a, b]);
    if e86 == None || e64 == None || eArm == None {
      return None, d86, d64, dArm;
    }
    TableValues(e86.value.values, a, "x86", KeptRows(x86, []));
    TableValues(e64.value.values, b, "x64", KeptRows(x64, ["x32"]));
    EntryValues(eArm.value.values, c, "Arm64", arm);
    CommonIsCommonToAll(a, b, c);
    var common := ExportCommon(t, c, a + b + c);
    var max := if e86.value.max > e64.value.max then e86.value.max else e64.value.max;
    max := if max > eArm.value.max then max else eArm.value.max;
    r := Some(Enums(e86.value, e64.value, eArm.value, common, max));
  }
}
