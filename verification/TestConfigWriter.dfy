/** The writer's loops: sections are built byte by byte, then the header with the running offset. */
module TestConfigWriter {
  import opened Options
  import opened Bytes
  import opened TestConfig

  lemma NumbersSnoc(ns: seq<int>, n: int, k: nat)
    requires (forall i | 0 <= i < |ns| :: Fits(ns[i], k)) && Fits(n, k)
    ensures NumberBytes(ns + [n], k) == NumberBytes(ns, k) + Packed(n, k)
  {
    hide Pow256, LE;
    if ns == [] {
      assert ns + [n] == [n];
    } else {
      assert (ns + [n])[1..] == ns[1..] + [n];
      NumbersSnoc(ns[1..], n, k);
    }
  }

  lemma {:induction false} RegionsSnoc(rs: seq<Region>, r: Region)
    requires (forall i | 0 <= i < |rs| :: RegionFits(rs[i])) && RegionFits(r)
    ensures AllRegions(rs + [r]) == AllRegions(rs) + RegionBytes(r)
  {
    hide RegionBytes, RegionFits;
    if rs == [] {
      assert rs + [r] == [r];
    } else {
      assert (rs + [r])[1..] == rs[1..] + [r];
      RegionsSnoc(rs[1..], r);
      assert AllRegions(rs + [r]) == RegionBytes(rs[0]) + (AllRegions(rs[1..]) + RegionBytes(r));
    }
  }

  lemma {:induction false} RegistersSnoc(rs: seq<RegisterData>, r: RegisterData)
    requires (forall i | 0 <= i < |rs| :: RegisterFits(rs[i])) && RegisterFits(r)
    ensures AllRegisters(rs + [r]) == AllRegisters(rs) + RegisterBytes(r)
  {
    hide RegisterBytes, RegisterFits;
    if rs == [] {
      assert rs + [r] == [r];
    } else {
      assert (rs + [r])[1..] == rs[1..] + [r];
      RegistersSnoc(rs[1..], r);
      assert AllRegisters(rs + [r]) == RegisterBytes(rs[0]) + (AllRegisters(rs[1..]) + RegisterBytes(r));
    }
  }

  lemma {:induction false} MemorySnoc(ms: seq<MemoryData>, m: MemoryData)
    requires (forall i | 0 <= i < |ms| :: MemoryFits(ms[i])) && MemoryFits(m)
    ensures AllMemory(ms + [m]) == AllMemory(ms) + MemoryBytes(m)
  {
    hide MemoryBytes, MemoryFits;
    if ms == [] {
      assert ms + [m] == [m];
    } else {
      assert (ms + [m])[1..] == ms[1..] + [m];
      MemorySnoc(ms[1..], m);
      assert AllMemory(ms + [m]) == MemoryBytes(ms[0]) + (AllMemory(ms[1..]) + MemoryBytes(m));
    }
  }

  lemma EnvSnoc(es: seq<EnvVar>, e: EnvVar)
    ensures AllEnv(es + [e]) == AllEnv(es) + EnvBytes(e)
  {
    if es == [] {
      assert es + [e] == [e];
    } else {
      assert (es + [e])[1..] == es[1..] + [e];
      EnvSnoc(es[1..], e);
    }
  }

  /** `None` is the exception `struct.pack` raises when a number does not fit. */
  method WriteNumbers(ns: seq<int>, k: nat) returns (r: Option<seq<byte>>)
    ensures r.Some? <==> forall i | 0 <= i < |ns| :: Fits(ns[i], k)
    ensures r.Some? ==> r.value == NumberBytes(ns, k)
  {
    var bs := [];
    for i := 0 to |ns|
      invariant forall j | 0 <= j < i :: Fits(ns[j], k)
      invariant bs == NumberBytes(ns[..i], k)
    {
      if !Fits(ns[i], k) {
        return None;
      }
      NumbersSnoc(ns[..i], ns[i], k);
      assert ns[..i] + [ns[i]] == ns[..i + 1];
      bs := bs + Packed(ns[i], k);
    }
    assert ns[..|ns|] == ns;
    return Some(bs);
  }

  method WriteRegions(rs: seq<Region>) returns (r: Option<seq<byte>>)
    ensures r.Some? <==> forall i | 0 <= i < |rs| :: RegionFits(rs[i])
    ensures r.Some? ==> r.value == AllRegions(rs)
  {
    var bs := [];
    for i := 0 to |rs|
      invariant forall j | 0 <= j < i :: RegionFits(rs[j])
      invariant bs == AllRegions(rs[..i])
    {
      if !RegionFits(rs[i]) {
        return None;
      }
      RegionsSnoc(rs[..i], rs[i]);
      assert rs[..i] + [rs[i]] == rs[..i + 1];
      bs := bs + Packed(rs[i].address, 8);
      bs := bs + Packed(rs[i].size, 8);
    }
    assert rs[..|rs|] == rs;
    return Some(bs);
  }

  method WriteRegisters(rs: seq<RegisterData>) returns (r: Option<seq<byte>>)
    ensures r.Some? <==> forall i | 0 <= i < |rs| :: RegisterFits(rs[i])
    ensures r.Some? ==> r.value == AllRegisters(rs)
  {
    var bs := [];
    for i := 0 to |rs|
      invariant forall j | 0 <= j < i :: RegisterFits(rs[j])
      invariant bs == AllRegisters(rs[..i])
    {
      var values := WriteNumbers(rs[i].values, 8);
      if values == None || !Fits(|rs[i].values|, 4) || !Fits(rs[i].key, 8) {
        return None;
      }
      RegistersSnoc(rs[..i], rs[i]);
      assert rs[..i] + [rs[i]] == rs[..i + 1];
      bs := bs + Packed(|rs[i].values|, 4);
      bs := bs + Packed(rs[i].key, 8);
      bs := bs + values.value;
    }
    assert rs[..|rs|] == rs;
    return Some(bs);
  }

  method WriteMemory(ms: seq<MemoryData>) returns (r: Option<seq<byte>>)
    ensures r.Some? <==> forall i | 0 <= i < |ms| :: MemoryFits(ms[i])
    ensures r.Some? ==> r.value == AllMemory(ms)
  {
    var bs := [];
    for i := 0 to |ms|
      invariant forall j | 0 <= j < i :: MemoryFits(ms[j])
      invariant bs == AllMemory(ms[..i])
    {
      var data := WriteNumbers(ms[i].data, 1);
      if data == None || !Fits(ms[i].address, 8) || !Fits(|ms[i].data|, 4) {
        return None;
      }
      MemorySnoc(ms[..i], ms[i]);
      assert ms[..i] + [ms[i]] == ms[..i + 1];
      bs := bs + Packed(ms[i].address, 8);
      bs := bs + Packed(|ms[i].data|, 4);
      bs := bs + data.value;
    }
    assert ms[..|ms|] == ms;
    return Some(bs);
  }

  method WriteEnv(es: seq<EnvVar>) returns (bs: seq<byte>)
    ensures bs == AllEnv(es)
  {
    bs := [];
    for i := 0 to |es|
      invariant bs == AllEnv(es[..i])
    {
      EnvSnoc(es[..i], es[i]);
      assert es[..i] + [es[i]] == es[..i + 1];
      bs := bs + es[i].name + [0] + es[i].value + [0];
    }
    assert es[..|es|] == es;
  }

  /** The serialisation: it succeeds exactly when everything fits, and what it writes reads back. */
  method WriteConfig(c: Config) returns (r: Option<seq<byte>>)
    ensures r.Some? <==> ConfigFits(c)
    ensures r.Some? ==> r.value == FileOf(c)
    ensures r.Some? && NulFree(c.env) ==> ReadConfig(r.value) == Some(c)
  {
    hide AllRegions, AllRegisters, AllMemory, AllEnv, NumberBytes, ReadConfig, Pow256, NulFree, RegionFits,
      RegisterFits, MemoryFits;
    var regions := WriteRegions(c.regions);
    var registers := WriteRegisters(c.registers);
    var memory := WriteMemory(c.memory);
    var env := WriteEnv(c.env);
    if regions == None || registers == None || memory == None {
      return None;
    }
    var wide := WriteNumbers(WideFields(c), 8);
    var offset := (8 * 4) + (4 * 3) + (4 * 8);
    var numbers := [c.abi, c.mode, c.features, offset, |c.regions|];
    offset := offset + |regions.value|;
    numbers := numbers + [offset, |c.registers|];
    offset := offset + |registers.value|;
    numbers := numbers + [offset, |c.memory|];
    offset := offset + |memory.value|;
    numbers := numbers + [offset, |c.env|];
    assert numbers == NarrowFields(c) && |numbers| == 11;
    assert |WideFields(c)| == 4;
    var narrow := WriteNumbers(numbers, 4);
    if wide == None || narrow == None {
      return None;
    }
    assert ConfigFits(c);
    r := Some(wide.value + narrow.value + (regions.value + (registers.value + (memory.value + env))));
    RoundTrip(c);
  }
}
