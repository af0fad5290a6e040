/**
 The binary test configuration: the writer of the build script, with its computed offsets, against the
 reader of the test harness, which follows them.
 */
module TestConfig {
  import opened Options
  import opened Bytes
  import opened Sequences

  datatype Region = Region(address: int, size: int)
  datatype RegisterData = RegisterData(key: int, values: seq<int>)
  datatype MemoryData = MemoryData(address: int, data: seq<int>)
  datatype EnvVar = EnvVar(name: seq<byte>, value: seq<byte>)

  /** The options once they are parsed; dictionaries in their insertion order. */
  datatype Config = Config(matchMask: int, ignoreMask: int, stackSize: int, entryPoint: int, abi: int, mode: int,
      features: int,
                           regions: seq<Region>, registers: seq<RegisterData>, memory: seq<MemoryData>,
                               env: seq<EnvVar>)

  // ----- the file -----

  predicate Fits(n: int, k: nat) {
    0 <= n < Pow256(k)
  }

  /** `struct.pack` of an unsigned number of `k` bytes. */
  function Packed(n: int, k: nat): seq<byte>
    requires Fits(n, k)
  {
    LE(n, k)
  }

  function NumberBytes(ns: seq<int>, k: nat): (bs: seq<byte>)
    requires forall i | 0 <= i < |ns| :: Fits(ns[i], k)
    ensures |bs| == k * |ns|
  {
    if ns == [] then [] else
      var bs := Packed(ns[0], k) + NumberBytes(ns[1..], k);
      assert k * |ns| == k + k * |ns[1..]|;
      bs
  }

  predicate RegionFits(r: Region) { Fits(r.address, 8) && Fits(r.size, 8) }
  predicate RegisterFits(r: RegisterData) {
    Fits(|r.values|, 4) && Fits(r.key, 8) && forall i | 0 <= i < |r.values| :: Fits(r.values[i], 8)
  }
  predicate MemoryFits(m: MemoryData) {
    Fits(m.address, 8) && Fits(|m.data|, 4) && forall i | 0 <= i < |m.data| :: Fits(m.data[i], 1)
  }

  function RegionBytes(r: Region): seq<byte>
    requires RegionFits(r)
  {
    Packed(r.address, 8) + Packed(r.size, 8)
  }

  function RegisterBytes(r: RegisterData): seq<byte>
    requires RegisterFits(r)
  {
    Packed(|r.values|, 4) + Packed(r.key, 8) + NumberBytes(r.values, 8)
  }

  function MemoryBytes(m: MemoryData): seq<byte>
    requires MemoryFits(m)
  {
    Packed(m.address, 8) + Packed(|m.data|, 4) + NumberBytes(m.data, 1)
  }

  function EnvBytes(e: EnvVar): seq<byte> {
    e.name + [0] + e.value + [0]
  }

  function AllRegions(rs: seq<Region>): seq<byte>
    requires forall i | 0 <= i < |rs| :: RegionFits(rs[i])
  {
    if rs == [] then [] else RegionBytes(rs[0]) + AllRegions(rs[1..])
  }

  function AllRegisters(rs: seq<RegisterData>): seq<byte>
    requires forall i | 0 <= i < |rs| :: RegisterFits(rs[i])
  {
    if rs == [] then [] else RegisterBytes(rs[0]) + AllRegisters(rs[1..])
  }

  function AllMemory(ms: seq<MemoryData>): seq<byte>
    requires forall i | 0 <= i < |ms| :: MemoryFits(ms[i])
  {
    if ms == [] then [] else MemoryBytes(ms[0]) + AllMemory(ms[1..])
  }

  function AllEnv(es: seq<EnvVar>): seq<byte> {
    if es == [] then [] else EnvBytes(es[0]) + AllEnv(es[1..])
  }

  const HEADER_LENGTH := 76

  predicate SectionsFit(c: Config) {
    && (forall i | 0 <= i < |c.regions| :: RegionFits(c.regions[i]))
    && (forall i | 0 <= i < |c.registers| :: RegisterFits(c.registers[i]))
    && (forall i | 0 <= i < |c.memory| :: MemoryFits(c.memory[i]))
  }

  /** The offsets of the four sections. */
  function RegisterOffset(c: Config): nat requires SectionsFit(c) { HEADER_LENGTH + |AllRegions(c.regions)| }
  function MemoryOffset(c: Config): nat requires SectionsFit(c) { RegisterOffset(c) + |AllRegisters(c.registers)| }
  function EnvOffset(c: Config): nat requires SectionsFit(c) { MemoryOffset(c) + |AllMemory(c.memory)| }

  function WideFields(c: Config): seq<int> {
    [c.matchMask, c.ignoreMask, c.stackSize, c.entryPoint]
  }

  function NarrowFields(c: Config): seq<int>
    requires SectionsFit(c)
  {
    [c.abi, c.mode, c.features, HEADER_LENGTH, |c.regions|, RegisterOffset(c), |c.registers|, MemoryOffset(c),
        |c.memory|,
     EnvOffset(c), |c.env|]
  }

  /** Everything that is packed fits its field. */
  predicate ConfigFits(c: Config) {
    && SectionsFit(c)
    && (forall i | 0 <= i < 4 :: Fits(WideFields(c)[i], 8))
    && (forall i | 0 <= i < 11 :: Fits(NarrowFields(c)[i], 4))
  }

  function Body(c: Config): seq<byte>
    requires SectionsFit(c)
  {
    AllRegions(c.regions) + (AllRegisters(c.registers) + (AllMemory(c.memory) + AllEnv(c.env)))
  }

  function FileOf(c: Config): seq<byte>
    requires ConfigFits(c)
  {
    NumberBytes(WideFields(c), 8) + NumberBytes(NarrowFields(c), 4) + Body(c)
  }

  // ----- the reader -----

  function ReadNumbers(bs: seq<byte>, k: nat, n: nat): Option<seq<int>>
    decreases n
  {
    if n == 0 then Some([])
    else if |bs| < k then None
    else match ReadNumbers(bs[k..], k, n - 1)
      case None => None
      case Some(ns) => Some([FromLE(bs[..k])] + ns)
  }

  /** `GetMemoryRegions`. */
  function ReadRegions(bs: seq<byte>, n: nat): Option<seq<Region>>
    decreases n
  {
    if n == 0 then Some([])
    else if |bs| < 16 then None
    else match ReadRegions(bs[16..], n - 1)
      case None => None
      case Some(rs) => Some([Region(FromLE(bs[..8]), FromLE(bs[8..16]))] + rs)
  }

  /** The walk over the register data in `CompareStates`. */
  function ReadRegisters(bs: seq<byte>, n: nat): Option<seq<RegisterData>>
    decreases n
  {
    if n == 0 then Some([])
    else if |bs| < 12 then None
    else
      var count := FromLE(bs[..4]);
      match ReadNumbers(bs[12..], 8, count)
      case None => None
      case Some(values) =>
        if |bs| < 12 + 8 * count then None
        else match ReadRegisters(bs[12 + 8 * count..], n - 1)
          case None => None
          case Some(rs) => Some([RegisterData(FromLE(bs[4..12]), values)] + rs)
  }

  /** `LoadMemory`. */
  function ReadMemory(bs: seq<byte>, n: nat): Option<seq<MemoryData>>
    decreases n
  {
    if n == 0 then Some([])
    else if |bs| < 12 then None
    else
      var length := FromLE(bs[8..12]);
      match ReadNumbers(bs[12..], 1, length)
      case None => None
      case Some(data) =>
        if |bs| < 12 + length then None
        else match ReadMemory(bs[12 + length..], n - 1)
          case None => None
          case Some(ms) => Some([MemoryData(FromLE(bs[..8]), data)] + ms)
  }

  /** The length of the zero-terminated string at the start of `bs`. */
  function StringLength(bs: seq<byte>): (n: nat)
    ensures n <= |bs|
    ensures n < |bs| ==> bs[n] == 0
    ensures forall i | 0 <= i < n :: bs[i] != 0
  {
    if bs == [] || bs[0] == 0 then 0 else 1 + StringLength(bs[1..])
  }

  /** One variable and what follows it. */
  function ReadVar(bs: seq<byte>): (r: Option<(EnvVar, seq<byte>)>)
    ensures r.Some? ==> |r.value.1| < |bs|
  {
    var k := StringLength(bs);
    if k == |bs| then None
    else
      var after := bs[k + 1..];
      var v := StringLength(after);
      if v == |after| then None else Some((EnvVar(bs[..k], after[..v]), after[v + 1..]))
  }

  /** `GetEnvironmentOptions`. */
  function ReadEnv(bs: seq<byte>, n: nat): Option<seq<EnvVar>>
    decreases n
  {
    if n == 0 then Some([])
    else match ReadVar(bs)
      case None => None
      case Some((e, rest)) =>
        match ReadEnv(rest, n - 1)
        case None => None
        case Some(es) => Some([e] + es)
  }

  function Section<T>(file: seq<byte>, offset: int, count: int, read: (seq<byte>, nat) -> Option<T>): Option<T> {
    if 0 <= offset <= |file| && 0 <= count then read(file[offset..], count) else None
  }

  /** `ConfigLoader`: the header, then each section at the offset and with the count the header gives. */
  function ReadConfig(file: seq<byte>): Option<Config> {
    if |file| < HEADER_LENGTH then None
    else match (ReadNumbers(file, 8, 4), ReadNumbers(file[32..], 4, 11))
      case (Some(w), Some(h)) =>
        if |w| != 4 || |h| != 11 then None
        else (match (Section(file, h[3], h[4], ReadRegions), Section(file, h[5], h[6], ReadRegisters),
                     Section(file, h[7], h[8], ReadMemory), Section(file, h[9], h[10], ReadEnv))
              case (Some(rs), Some(gs), Some(ms), Some(es)) =>
                Some(Config(w[0], w[1], w[2], w[3], h[0], h[1], h[2], rs, gs, ms, es))
              case _ => None)
      case _ => None
  }

  // ----- reading what was written -----

  lemma NumbersStep(n: int, k: nat, tail: seq<byte>, ns: seq<int>)
    requires Fits(n, k) && ReadNumbers(tail, k, |ns|) == Some(ns)
    ensures ReadNumbers(Packed(n, k) + tail, k, |ns| + 1) == Some([n] + ns)
  {
    hide Pow256, LE, FromLE;
    var bs := Packed(n, k) + tail;
    FromLEOfLE(n, k);
    assert bs[..k] == LE(n, k) && bs[k..] == tail;
  }

  lemma {:induction false} NumbersBack(ns: seq<int>, k: nat, rest: seq<byte>)
    requires forall i | 0 <= i < |ns| :: Fits(ns[i], k)
    ensures ReadNumbers(NumberBytes(ns, k) + rest, k, |ns|) == Some(ns)
  {
    hide Packed, Fits;
    if ns != [] {
      var x, y := Packed(ns[0], k), NumberBytes(ns[1..], k);
      assert NumberBytes(ns, k) == x + y;
      NumbersBack(ns[1..], k, rest);
      hide NumberBytes, ReadNumbers;
      Regroup(x, y, rest);
      NumbersStep(ns[0], k, y + rest, ns[1..]);
      Uncons(ns);
    }
  }

  lemma RegionHead(r: Region, rest: seq<byte>)
    requires RegionFits(r)
    ensures var bs := RegionBytes(r) + rest;
            |bs| >= 16 && FromLE(bs[..8]) == r.address && FromLE(bs[8..16]) == r.size && bs[16..] == rest
  {
    hide Pow256, LE, FromLE;
    var bs := RegionBytes(r) + rest;
    FromLEOfLE(r.address, 8);
    FromLEOfLE(r.size, 8);
    assert bs[..8] == LE(r.address, 8) && bs[8..16] == LE(r.size, 8);
  }

  lemma RegionsStep(r: Region, tail: seq<byte>, rs: seq<Region>)
    requires RegionFits(r) && ReadRegions(tail, |rs|) == Some(rs)
    ensures ReadRegions(RegionBytes(r) + tail, |rs| + 1) == Some([r] + rs)
  {
    hide RegionBytes, FromLE, Pow256, LE, Fits;
    RegionHead(r, tail);
  }

  lemma {:induction false} RegionsBack(rs: seq<Region>, rest: seq<byte>)
    requires forall i | 0 <= i < |rs| :: RegionFits(rs[i])
    ensures ReadRegions(AllRegions(rs) + rest, |rs|) == Some(rs)
  {
    hide RegionBytes, FromLE, Pow256, LE, Fits;
    if rs != [] {
      var tail := AllRegions(rs[1..]) + rest;
      RegionsBack(rs[1..], rest);
      var x, y := RegionBytes(rs[0]), AllRegions(rs[1..]);
      assert AllRegions(rs) == x + y;
      hide AllRegions, ReadRegions;
      Regroup(x, y, rest);
      RegionsStep(rs[0], tail, rs[1..]);
      Uncons(rs);
    }
  }

  lemma RegisterHead(r: RegisterData, rest: seq<byte>)
    requires RegisterFits(r)
    ensures var bs := RegisterBytes(r) + rest;
            && |bs| >= 12 + 8 * |r.values| && FromLE(bs[..4]) == |r.values| && FromLE(bs[4..12]) == r.key
            && bs[12..] == NumberBytes(r.values, 8) + rest && bs[12 + 8 * |r.values|..] == rest
  {
    hide Pow256, LE, FromLE, NumberBytes;
    var bs := RegisterBytes(r) + rest;
    FromLEOfLE(|r.values|, 4);
    FromLEOfLE(r.key, 8);
    assert bs[..4] == LE(|r.values|, 4) && bs[4..12] == LE(r.key, 8);
  }

  lemma RegistersStep(r: RegisterData, tail: seq<byte>, rs: seq<RegisterData>)
    requires RegisterFits(r) && ReadRegisters(tail, |rs|) == Some(rs)
    ensures ReadRegisters(RegisterBytes(r) + tail, |rs| + 1) == Some([r] + rs)
  {
    hide RegisterBytes, NumberBytes, ReadNumbers, FromLE, Pow256, LE, Fits;
    RegisterHead(r, tail);
    NumbersBack(r.values, 8, tail);
  }

  lemma {:induction false} RegistersBack(rs: seq<RegisterData>, rest: seq<byte>)
    requires forall i | 0 <= i < |rs| :: RegisterFits(rs[i])
    ensures ReadRegisters(AllRegisters(rs) + rest, |rs|) == Some(rs)
  {
    hide RegisterBytes, NumberBytes, ReadNumbers, FromLE, Pow256, LE, Fits;
    if rs != [] {
      var tail := AllRegisters(rs[1..]) + rest;
      RegistersBack(rs[1..], rest);
      var x, y := RegisterBytes(rs[0]), AllRegisters(rs[1..]);
      assert AllRegisters(rs) == x + y;
      hide AllRegisters, ReadRegisters;
      Regroup(x, y, rest);
      RegistersStep(rs[0], tail, rs[1..]);
      Uncons(rs);
    }
  }

  lemma MemoryHead(m: MemoryData, rest: seq<byte>)
    requires MemoryFits(m)
    ensures var bs := MemoryBytes(m) + rest;
            && |bs| >= 12 + |m.data| && FromLE(bs[..8]) == m.address && FromLE(bs[8..12]) == |m.data|
            && bs[12..] == NumberBytes(m.data, 1) + rest && bs[12 + |m.data|..] == rest
  {
    hide Pow256, LE, FromLE, NumberBytes;
    var bs := MemoryBytes(m) + rest;
    FromLEOfLE(m.address, 8);
    FromLEOfLE(|m.data|, 4);
    assert bs[..8] == LE(m.address, 8) && bs[8..12] == LE(|m.data|, 4);
  }

  lemma MemoryStep(m: MemoryData, tail: seq<byte>, ms: seq<MemoryData>)
    requires MemoryFits(m) && ReadMemory(tail, |ms|) == Some(ms)
    ensures ReadMemory(MemoryBytes(m) + tail, |ms| + 1) == Some([m] + ms)
  {
    hide MemoryBytes, NumberBytes, ReadNumbers, FromLE, Pow256, LE, Fits;
    MemoryHead(m, tail);
    NumbersBack(m.data, 1, tail);
  }

  lemma {:induction false} MemoryBack(ms: seq<MemoryData>, rest: seq<byte>)
    requires forall i | 0 <= i < |ms| :: MemoryFits(ms[i])
    ensures ReadMemory(AllMemory(ms) + rest, |ms|) == Some(ms)
  {
    hide MemoryBytes, NumberBytes, ReadNumbers, FromLE, Pow256, LE, Fits;
    if ms != [] {
      var tail := AllMemory(ms[1..]) + rest;
      MemoryBack(ms[1..], rest);
      var x, y := MemoryBytes(ms[0]), AllMemory(ms[1..]);
      assert AllMemory(ms) == x + y;
      hide AllMemory, ReadMemory;
      Regroup(x, y, rest);
      MemoryStep(ms[0], tail, ms[1..]);
      Uncons(ms);
    }
  }

  predicate NulFree(es: seq<EnvVar>) {
    forall i | 0 <= i < |es| :: 0 !in es[i].name && 0 !in es[i].value
  }

  lemma StringEnds(s: seq<byte>, rest: seq<byte>)
    ensures var bs := s + [0] + rest; var n := StringLength(bs);
            n <= |s| && (n == |s| <==> 0 !in s)
  {
    var bs := s + [0] + rest;
    var n := StringLength(bs);
    assert bs[|s|] == 0;
    assert forall i | 0 <= i < |s| :: bs[i] == s[i];
  }

  lemma VarBack(e: EnvVar, tail: seq<byte>)
    ensures 0 !in e.name && 0 !in e.value ==> ReadVar(EnvBytes(e) + tail) == Some((e, tail))
    ensures 0 in e.name || 0 in e.value
            ==> ReadVar(EnvBytes(e) + tail) == None || ReadVar(EnvBytes(e) + tail).value.0 != e
  {
    var bs, after := EnvBytes(e) + tail, e.value + [0] + tail;
    assert bs == e.name + [0] + after;
    StringEnds(e.name, after);
    StringEnds(e.value, tail);
    if 0 !in e.name {
      assert bs[|e.name| + 1..] == after && bs[..|e.name|] == e.name;
      if 0 !in e.value {
        assert after[..|e.value|] == e.value && after[|e.value| + 1..] == tail;
      }
    }
  }

  /** The environment comes back if and only if no string in it contains a NUL. */
  lemma {:induction false} EnvBack(es: seq<EnvVar>)
    ensures ReadEnv(AllEnv(es), |es|) == Some(es) <==> NulFree(es)
  {
    hide EnvBytes, ReadVar;
    if es != [] {
      var tail, e := AllEnv(es[1..]), es[0];
      VarBack(e, tail);
      EnvBack(es[1..]);
      assert AllEnv(es) == EnvBytes(e) + tail;
      assert NulFree(es) <==> 0 !in e.name && 0 !in e.value && NulFree(es[1..]) by {
        assert forall i | 0 < i < |es| :: es[i] == es[1..][i - 1];
      }
      assert es == [e] + es[1..];
      match ReadVar(AllEnv(es))
      case None =>
      case Some((x, rest)) =>
        if ReadEnv(rest, |es| - 1).Some? {
          var xs := ReadEnv(rest, |es| - 1).value;
          assert ([x] + xs)[0] == x && ([x] + xs)[1..] == xs;
        }
    }
  }

  lemma HeaderBack(c: Config)
    requires ConfigFits(c)
    ensures var file := FileOf(c);
            && |file| >= HEADER_LENGTH
            && ReadNumbers(file, 8, 4) == Some(WideFields(c))
            && ReadNumbers(file[32..], 4, 11) == Some(NarrowFields(c))
            && file[HEADER_LENGTH..] == Body(c)
  {
    hide Body, ReadNumbers, RegisterOffset, MemoryOffset, EnvOffset, Pow256, LE, Fits;
    var body := Body(c);
    var file, narrow := FileOf(c), NumberBytes(NarrowFields(c), 4) + body;
    NumbersBack(WideFields(c), 8, narrow);
    NumbersBack(NarrowFields(c), 4, body);
    assert file == NumberBytes(WideFields(c), 8) + narrow;
    assert file[32..] == narrow;
    assert file[HEADER_LENGTH..] == narrow[44..] == body;
  }

  /** The sections follow the header and each other without gaps and fill the file. */
  predicate Tiled(c: Config, file: seq<byte>)
    requires SectionsFit(c)
  {
    && |file| == EnvOffset(c) + |AllEnv(c.env)|
    && file[HEADER_LENGTH..RegisterOffset(c)] == AllRegions(c.regions)
    && file[RegisterOffset(c)..MemoryOffset(c)] == AllRegisters(c.registers)
    && file[MemoryOffset(c)..EnvOffset(c)] == AllMemory(c.memory)
    && file[EnvOffset(c)..] == AllEnv(c.env)
  }

  lemma SectionsTile(c: Config)
    requires ConfigFits(c)
    ensures Tiled(c, FileOf(c))
    ensures FileOf(c)[RegisterOffset(c)..] == AllRegisters(c.registers) + (AllMemory(c.memory) + AllEnv(c.env))
    ensures FileOf(c)[MemoryOffset(c)..] == AllMemory(c.memory) + AllEnv(c.env)
  {
    var file := FileOf(c);
    HeaderBack(c);
    BodyTiles(c, file);
  }

  lemma BodyTiles(c: Config, file: seq<byte>)
    requires SectionsFit(c) && |file| >= HEADER_LENGTH && file[HEADER_LENGTH..] == Body(c)
    ensures Tiled(c, file)
    ensures file[RegisterOffset(c)..] == AllRegisters(c.registers) + (AllMemory(c.memory) + AllEnv(c.env))
    ensures file[MemoryOffset(c)..] == AllMemory(c.memory) + AllEnv(c.env)
  {
    var a, b, d, e := AllRegions(c.regions), AllRegisters(c.registers), AllMemory(c.memory), AllEnv(c.env);
    var i, j, k := RegisterOffset(c), MemoryOffset(c), EnvOffset(c);
    assert i == HEADER_LENGTH + |a| && j == i + |b| && k == j + |d|;
    hide AllRegions, AllRegisters, AllMemory, AllEnv, RegisterOffset, MemoryOffset, EnvOffset;
    FourTiles(file, a, b, d, e, i, j, k);
  }

  lemma FourTiles(file: seq<byte>, a: seq<byte>, b: seq<byte>, d: seq<byte>, e: seq<byte>, i: nat, j: nat, k: nat)
    requires |file| >= HEADER_LENGTH && file[HEADER_LENGTH..] == a + (b + (d + e))
    requires i == HEADER_LENGTH + |a| && j == i + |b| && k == j + |d|
    ensures |file| == k + |e|
    ensures file[HEADER_LENGTH..i] == a && file[i..j] == b && file[j..k] == d && file[k..] == e
    ensures file[i..] == b + (d + e) && file[j..] == d + e
  {
    Tiles(file, HEADER_LENGTH, i, a, b + (d + e));
    Tiles(file, i, j, b, d + e);
    Tiles(file, j, k, d, e);
  }

  lemma Tiles(file: seq<byte>, i: nat, j: nat, a: seq<byte>, b: seq<byte>)
    requires i <= |file| && file[i..] == a + b && j == i + |a|
    ensures |file| == j + |b| && file[i..j] == a && file[j..] == b
  {
    assert file[i..j] == file[i..][..|a|];
    assert file[j..] == file[i..][|a|..];
  }

  /**
   Round trip: the harness reads back exactly what was configured, if and only if no environment string contains
   a NUL.
   */
  lemma RoundTrip(c: Config)
    requires ConfigFits(c)
    ensures ReadConfig(FileOf(c)) == Some(c) <==> NulFree(c.env)
  {
    HeaderBack(c);
    SectionsTile(c);
    RegionsBack(c.regions, AllRegisters(c.registers) + (AllMemory(c.memory) + AllEnv(c.env)));
    RegistersBack(c.registers, AllMemory(c.memory) + AllEnv(c.env));
    MemoryBack(c.memory, AllEnv(c.env));
    EnvBack(c.env);
    SectionsRead(c, FileOf(c));
  }

  lemma SectionsRead(c: Config, file: seq<byte>)
    requires SectionsFit(c) && |file| >= HEADER_LENGTH && EnvOffset(c) <= |file|
    requires ReadNumbers(file, 8, 4) == Some(WideFields(c)) && ReadNumbers(file[32..], 4, 11) == Some(NarrowFields(c))
    requires ReadRegions(file[HEADER_LENGTH..], |c.regions|) == Some(c.regions)
    requires ReadRegisters(file[RegisterOffset(c)..], |c.registers|) == Some(c.registers)
    requires ReadMemory(file[MemoryOffset(c)..], |c.memory|) == Some(c.memory)
    ensures ReadConfig(file) == match ReadEnv(file[EnvOffset(c)..],
            |c.env|) case None => None case Some(es) => Some(c.(env := es))
  {
    hide ReadNumbers, ReadRegions, ReadRegisters, ReadMemory, ReadEnv, AllRegions, AllRegisters, AllMemory,
      RegionFits, RegisterFits, MemoryFits;
  }
}
