/**
 The two spellings of a digest: the operand list of the guest's `.byte` directive and the host's string
 literal. Each is read back by the rules of the language it is embedded in.
 */
module DigestText {
  import opened Options
  import opened Bytes
  import opened Sequences

  // ----- guest: 0xNN, 0xNN, ... -----

  function GuestDigest(d: seq<byte>): string {
    if d == [] then ""
    else if |d| == 1 then "0x" + Hex2(d[0])
    else "0x" + Hex2(d[0]) + ", " + GuestDigest(d[1..])
  }

  /** An assembler operand list: hexadecimal numbers separated by commas and blanks. */
  function ParseByteList(s: string): Option<seq<byte>>
    decreases |s|
  {
    if |s| < 2 || s[0] != '0' || s[1] != 'x' then None
    else
      var n := HexRun(s[2..]);
      if n == 0 || HexNumber(s[2..][..n]) >= 256 then None
      else
        var b, rest := HexNumber(s[2..][..n]), s[2..][n..];
        if rest == "" then Some([b])
        else if |rest| >= 2 && rest[0] == ',' && rest[1] == ' ' then
          match ParseByteList(rest[2..])
          case None => None
          case Some(bs) => Some([b] + bs)
        else None
  }

  lemma HexRunOfHex2(b: byte, rest: string)
    requires rest == "" || !IsHex(rest[0])
    ensures var s := Hex2(b) + rest; HexRun(s) == 2 && s[..2] == Hex2(b) && s[2..] == rest
  {
    hide Hex2;
    var s := Hex2(b) + rest;
    assert s[0] == Hex2(b)[0] && s[1] == Hex2(b)[1];
    assert |s| > 2 ==> s[2] == rest[0];
    assert s[..2] == Hex2(b);
    assert s[2..] == rest;
  }

  lemma ParseByteStep(b: byte, rest: string)
    requires rest == "" || (|rest| >= 2 && rest[0] == ',' && rest[1] == ' ')
    ensures var r := ParseByteList("0x" + (Hex2(b) + rest));
            if rest == "" then r == Some([b])
            else match ParseByteList(rest[2..]) case None => r == None case Some(bs) => r == Some([b] + bs)
  {
    hide Hex2;
    var s := "0x" + (Hex2(b) + rest);
    assert s[2..] == Hex2(b) + rest;
    HexRunOfHex2(b, rest);
  }

  lemma GuestDigestCons(d: seq<byte>)
    requires d != []
    ensures GuestDigest(d) == "0x" + (Hex2(d[0]) + (if |d| == 1 then "" else ", " + GuestDigest(d[1..])))
  {
    hide Hex2;
    var x, y := "0x", Hex2(d[0]);
    if |d| == 1 {
      assert GuestDigest(d) == x + y;
      assert y + "" == y;
    } else {
      assert GuestDigest(d) == x + y + ", " + GuestDigest(d[1..]);
      hide GuestDigest;
      var z, w := ", ", GuestDigest(d[1..]);
      Regroup(x + y, z, w);
      Regroup(x, y, z + w);
    }
  }

  lemma {:induction false} GuestDigestParses(d: seq<byte>)
    requires d != []
    ensures ParseByteList(GuestDigest(d)) == Some(d)
  {
    hide Hex2, ParseByteList;
    var rest := if |d| == 1 then "" else ", " + GuestDigest(d[1..]);
    GuestDigestCons(d);
    ParseByteStep(d[0], rest);
    if |d| > 1 {
      GuestDigestParses(d[1..]);
      assert rest[2..] == GuestDigest(d[1..]);
      assert d == [d[0]] + d[1..];
    } else {
      assert d == [d[0]];
    }
  }

  // ----- host: \xNN\xNN... -----

  function HostDigest(d: seq<byte>): string {
    if d == [] then "" else "\\x" + Hex2(d[0]) + HostDigest(d[1..])
  }

  /**
   The bytes of a C string literal. A hexadecimal escape takes every digit that follows (section 6.4.4.4 of ISO
   C11).
   */
  function ParseLiteral(s: string): Option<seq<byte>>
    decreases |s|
  {
    if s == "" then Some([])
    else if s[0] == '\\' then
      if |s| < 2 || s[1] != 'x' then None
      else
        var n := HexRun(s[2..]);
        if n == 0 || HexNumber(s[2..][..n]) >= 256 then None
        else match ParseLiteral(s[2..][n..])
          case None => None
          case Some(bs) => Some([HexNumber(s[2..][..n])] + bs)
    else if s[0] as int >= 128 || s[0] == '"' then None
    else match ParseLiteral(s[1..])
      case None => None
      case Some(bs) => Some([s[0] as int] + bs)
  }

  lemma ParseLiteralStep(b: byte, rest: string)
    requires rest == "" || rest[0] == '\\'
    ensures var r := ParseLiteral("\\x" + (Hex2(b) + rest));
            match ParseLiteral(rest) case None => r == None case Some(bs) => r == Some([b] + bs)
  {
    hide Hex2;
    var s := "\\x" + (Hex2(b) + rest);
    assert s[2..] == Hex2(b) + rest;
    HexRunOfHex2(b, rest);
  }

  lemma HostDigestCons(d: seq<byte>)
    requires d != []
    ensures HostDigest(d) == "\\x" + (Hex2(d[0]) + HostDigest(d[1..]))
    ensures HostDigest(d)[0] == '\\'
  {
    hide Hex2;
    var x, y, z := "\\x", Hex2(d[0]), HostDigest(d[1..]);
    assert x + y + z == x + (y + z);
  }

  lemma {:induction false} HostDigestParses(d: seq<byte>)
    ensures ParseLiteral(HostDigest(d)) == Some(d)
  {
    hide Hex2;
    if d != [] {
      hide ParseLiteral;
      HostDigestParses(d[1..]);
      HostDigestCons(d);
      if |d| > 1 { HostDigestCons(d[1..]); }
      ParseLiteralStep(d[0], HostDigest(d[1..]));
      assert d == [d[0]] + d[1..];
    }
  }

  // ----- the loops that print them -----

  lemma {:induction false} GuestDigestAppend(d: seq<byte>, b: byte)
    ensures GuestDigest(d + [b]) == GuestDigest(d) + (if d == [] then "" else ", ") + "0x" + Hex2(b)
  {
    hide Hex2;
    if d == [] {
      assert d + [b] == [b];
    } else if |d| == 1 {
      assert (d + [b])[1..] == [b];
    } else {
      assert (d + [b])[1..] == d[1..] + [b];
      GuestDigestAppend(d[1..], b);
    }
  }

  lemma {:induction false} HostDigestAppend(d: seq<byte>, b: byte)
    ensures HostDigest(d + [b]) == HostDigest(d) + "\\x" + Hex2(b)
  {
    hide Hex2;
    if d == [] {
      assert (d + [b])[1..] == [];
    } else {
      assert (d + [b])[1..] == d[1..] + [b];
      HostDigestAppend(d[1..], b);
    }
  }

  lemma GuestDigestEmpty()
    ensures GuestDigest([]) == ""
  {
  }

  /** The separator is printed before every byte but the first. */
  method PrintThunkDigest(d: seq<byte>) returns (s: string)
    requires d != []
    ensures s == GuestDigest(d) && ParseByteList(s) == Some(d)
  {
    hide Hex2, GuestDigest, ParseByteList;
    GuestDigestEmpty();
    s := "";
    var first := true;
    for i := 0 to |d|
      invariant s == GuestDigest(d[..i]) && first == (i == 0)
    {
      GuestDigestAppend(d[..i], d[i]);
      assert d[..i] + [d[i]] == d[..i + 1];
      s := s + (if first then "" else ", ") + "0x" + Hex2(d[i]);
      first := false;
    }
    assert d[..|d|] == d;
    GuestDigestParses(d);
  }

  /** The separator is printed behind every byte, and the last one is taken off again. */
  method PrintCallbackDigest(d: seq<byte>) returns (s: string)
    requires d != []
    ensures s == GuestDigest(d) && ParseByteList(s) == Some(d)
  {
    hide Hex2, GuestDigest, ParseByteList;
    s := "";
    for i := 0 to |d|
      invariant s == if i == 0 then "" else GuestDigest(d[..i]) + ", "
    {
      GuestDigestAppend(d[..i], d[i]);
      assert d[..i] + [d[i]] == d[..i + 1];
      if i == 0 { GuestDigestEmpty(); }
      assert s + "0x" + Hex2(d[i]) == GuestDigest(d[..i + 1]);
      s := s + "0x" + Hex2(d[i]) + ", ";
    }
    assert d[..|d|] == d;
    s := s[..|s| - 1];
    s := s[..|s| - 1];
    GuestDigestParses(d);
  }

  method PrintTableDigest(d: seq<byte>) returns (s: string)
    ensures s == HostDigest(d) && ParseLiteral(s) == Some(d)
  {
    hide Hex2, ParseLiteral;
    s := "";
    for i := 0 to |d|
      invariant s == HostDigest(d[..i])
    {
      HostDigestAppend(d[..i], d[i]);
      assert d[..i] + [d[i]] == d[..i + 1];
      s := s + "\\x" + Hex2(d[i]);
    }
    assert d[..|d|] == d;
    HostDigestParses(d);
  }
}
