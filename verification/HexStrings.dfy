/** `parse_hexstring`: space-separated hexadecimal numbers to bytes, each number least significant byte first. */
module HexStrings {
  import opened Options
  import opened Texts
  import opened Bytes

  /** `int(s, 16)` on at most two ASCII characters; `None` is the exception it raises. */
  function PythonInt16(s: string): Option<int> {
    var t := Trim(s);
    if |t| == 1 && IsHex(t[0]) then Some(HexValue(t[0]))
    else if |t| == 2 && IsHex(t[0]) && IsHex(t[1]) then Some(16 * HexValue(t[0]) + HexValue(t[1]))
    else if |t| == 2 && t[0] == '+' && IsHex(t[1]) then Some(HexValue(t[1]))
    else if |t| == 2 && t[0] == '-' && IsHex(t[1]) then Some(-(HexValue(t[1]) as int))
    else None
  }

  /** The last two characters, and what is before them. */
  function Tail2(s: string): string { if |s| < 2 then s else s[|s| - 2..] }
  function Init2(s: string): string { if |s| < 2 then "" else s[..|s| - 2] }

  /** The inner loop: two digits at a time from the end. */
  function ChunkBytes(num: string): Option<seq<int>>
    decreases |num|
  {
    if num == "" then Some([])
    else match (PythonInt16(Tail2(num)), ChunkBytes(Init2(num)))
      case (Some(b), Some(bs)) => Some([b] + bs)
      case _ => None
  }

  predicate HasPrefix(s: string) { "0x" <= s }

  function Drop2(s: string): string { if |s| < 2 then "" else s[2..] }

  /** The outer loop: whether the prefix is cut off is decided by the whole string, for every number in it. */
  function AllBytes(cut: bool, chunks: seq<string>): Option<seq<int>> {
    if chunks == [] then Some([])
    else match (ChunkBytes(if cut then Drop2(chunks[0]) else chunks[0]), AllBytes(cut, chunks[1..]))
      case (Some(a), Some(b)) => Some(a + b)
      case _ => None
  }

  function ParseHex(s: string): Option<seq<int>> {
    AllBytes(HasPrefix(s), Split(s, ' '))
  }

  function Behind(bytes: seq<int>, r: Option<seq<int>>): Option<seq<int>> {
    match r
    case None => None
    case Some(bs) => Some(bytes + bs)
  }

  lemma BehindMore(bytes: seq<int>, b: int, a: Option<seq<int>>)
    ensures Behind(bytes + [b], a) == Behind(bytes, Behind([b], a))
  {
    if a.Some? { assert bytes + [b] + a.value == bytes + ([b] + a.value); }
  }

  lemma BehindNothing(bytes: seq<int>)
    ensures Behind(bytes, Some([])) == Some(bytes)
  {
    assert bytes + [] == bytes;
  }

  /** The loop that shortens `num` and extends `byte_data`. */
  method AppendChunk(chunk: string, before: seq<int>) returns (r: Option<seq<int>>)
    ensures r == Behind(before, ChunkBytes(chunk))
  {
    var num, bytes := chunk, before;
    while num != ""
      invariant Behind(before, ChunkBytes(chunk)) == Behind(bytes, ChunkBytes(num))
      decreases |num|
    {
      var b := PythonInt16(Tail2(num));
      if b == None {
        return None;
      }
      BehindMore(bytes, b.value, ChunkBytes(Init2(num)));
      assert ChunkBytes(num) == Behind([b.value], ChunkBytes(Init2(num)));
      bytes := bytes + [b.value];
      num := Init2(num);
    }
    BehindNothing(bytes);
    return Some(bytes);
  }

  lemma BehindTwice(before: seq<int>, a: Option<seq<int>>, b: Option<seq<int>>)
    ensures var r := match (a, b) case (Some(x), Some(y)) => Some(x + y) case _ => None;
            Behind(before, r) == if a.Some? then Behind(before + a.value, b) else None
  {
    if a.Some? && b.Some? { assert before + (a.value + b.value) == before + a.value + b.value; }
  }

  /** `parse_hexstring`; `None` is the exception of `int`. */
  method ParseHexString(s: string) returns (r: Option<(nat, seq<int>)>)
    ensures r.Some? <==> ParseHex(s).Some?
    ensures r.Some? ==> r.value.1 == ParseHex(s).value && r.value.0 == |r.value.1|
  {
    var bytes := [];
    var chunks := Split(s, ' ');
    assert chunks[0..] == chunks;
    assert ParseHex(s) == Behind([], ParseHex(s)) by {
      if ParseHex(s).Some? { assert [] + ParseHex(s).value == ParseHex(s).value; }
    }
    for i := 0 to |chunks|
      invariant ParseHex(s) == Behind(bytes, AllBytes(HasPrefix(s), chunks[i..]))
    {
      assert chunks[i..][1..] == chunks[i + 1..];
      var num := if HasPrefix(s) then Drop2(chunks[i]) else chunks[i];
      BehindTwice(bytes, ChunkBytes(num), AllBytes(HasPrefix(s), chunks[i + 1..]));
      var more := AppendChunk(num, bytes);
      if more == None {
        return None;
      }
      bytes := more.value;
    }
    BehindNothing(bytes);
    return Some((|bytes|, bytes));
  }

  // ----- what the bytes stand for -----

  predicate AllHex(s: string) { forall c | c in s :: IsHex(c) }

  /** The digits of a number, without its prefix if it has one. */
  function Digits(c: string): string { if HasPrefix(c) then c[2..] else c }

  /** The bytes of a number with these digits: half as many, rounded up, least significant first. */
  function NumberOf(d: string): seq<byte>
    requires AllHex(d)
  {
    LE(HexNumber(d), (|d| + 1) / 2)
  }

  function NumbersOf(chunks: seq<string>): seq<int>
    requires forall i | 0 <= i < |chunks| :: AllHex(Digits(chunks[i]))
  {
    if chunks == [] then [] else NumberOf(Digits(chunks[0])) + NumbersOf(chunks[1..])
  }

  lemma TrimHex(s: string)
    requires AllHex(s)
    ensures Trim(s) == s
  {
    if s != "" { assert s[0] in s && s[|s| - 1] in s; }
  }

  lemma {:induction false} HexSplit(s: string)
    requires AllHex(s) && |s| >= 2
    ensures AllHex(Init2(s)) && AllHex(Tail2(s))
    ensures HexNumber(s) == 256 * HexNumber(Init2(s)) + HexNumber(Tail2(s)) && HexNumber(Tail2(s)) < 256
  {
    var n := |s|;
    assert s[..n - 1][..n - 2] == s[..n - 2];
    assert Tail2(s)[..1] == [s[n - 2]] && Tail2(s)[..1][..0] == "";
    assert HexNumber(Tail2(s)[..1]) == HexValue(s[n - 2]);
  }

  lemma HexNothing()
    ensures HexNumber("") == 0
  {
  }

  lemma TailIsNumber(t: string)
    requires AllHex(t) && 1 <= |t| <= 2
    ensures PythonInt16(t) == Some(HexNumber(t)) && HexNumber(t) < 256
  {
    TrimHex(t);
    hide Trim, IsHex;
    assert t[0] in t && t[|t| - 1] in t;
    assert t[..0] == "";
    if |t| == 2 {
      assert t[..1] == [t[0]] && t[..1][..0] == "";
      assert HexNumber(t) == 16 * HexNumber(t[..1]) + HexValue(t[1]);
    }
  }

  /** The inner loop on digits gives the number, in half as many bytes. */
  lemma {:induction false} ChunkIsNumber(d: string)
    requires AllHex(d)
    ensures ChunkBytes(d) == Some(NumberOf(d)) && FromLE(NumberOf(d)) == HexNumber(d)
    decreases |d|
  {
    hide PythonInt16, HexNumber, IsHex;
    if d == "" {
      hide AllHex;
      HexNothing();
    } else if |d| == 1 {
      TailIsNumber(d);
      HexNothing();
      assert LE(HexNumber(d), 1) == [HexNumber(d)];
    } else {
      HexSplit(d);
      var t := Tail2(d);
      TailIsNumber(t);
      ChunkIsNumber(Init2(d));
      var k := (|d| + 1) / 2;
      assert (|Init2(d)| + 1) / 2 == k - 1;
      assert HexNumber(d) % 256 == HexNumber(t) && HexNumber(d) / 256 == HexNumber(Init2(d));
      assert LE(HexNumber(d), k) == [HexNumber(t)] + LE(HexNumber(Init2(d)), k - 1);
      assert NumberOf(d)[1..] == NumberOf(Init2(d));
    }
  }

  const LOWER := "0123456789abcdef"
  const UPPER := "0123456789ABCDEF"

  /** Digits count from 0 to 15 in either case. Python reads two digits, and a digit behind a sign or beside a blank. */
  lemma PairsRead(x: char, y: char)
    ensures forall d: nat | d < 16 ::
              IsHex(LOWER[d]) && IsHex(UPPER[d]) && HexValue(LOWER[d]) == d == HexValue(UPPER[d])
    ensures IsHex(x) && IsHex(y) ==> PythonInt16([x, y]) == Some(16 * HexValue(x) + HexValue(y))
    ensures x == '-' && IsHex(y) ==> PythonInt16([x, y]) == Some(-1 * HexValue(y))
    ensures (x == '+' || IsBlank(x)) && IsHex(y) ==> PythonInt16([x, y]) == Some(HexValue(y))
    ensures IsHex(x) && IsBlank(y) ==> PythonInt16([x, y]) == Some(HexValue(x))
    ensures PythonInt16([x, y]).Some? ==> IsHex(x) || IsHex(y)
  {
    var s := [x, y];
    assert s[1..] == [y] && s[..1] == [x] && [x][..0] == "" && [y][1..] == "";
    assert IsBlank(x) && IsHex(y) ==> Trim(s) == Trim([y]) == [y];
    assert IsBlank(x) && IsBlank(y) ==> Trim(s) == Trim([y]) == Trim([y][1..]) == "";
    assert !IsBlank(x) && IsBlank(y) ==> Trim(s) == Trim([x]) == [x];
    assert !IsBlank(x) && !IsBlank(y) ==> Trim(s) == s;
    assert IsBlank(x) && !IsBlank(y) ==> Trim(s) == Trim([y]) == [y];
  }

  /** A number whose prefix is not cut off raises an exception: `x` is no digit. */
  lemma {:induction false} PrefixIsNoNumber(c: string)
    requires HasPrefix(c)
    ensures ChunkBytes(c) == None
    decreases |c|
  {
    if |c| >= 4 {
      assert HasPrefix(Init2(c)) by { assert Init2(c)[..2] == c[..2]; }
      PrefixIsNoNumber(Init2(c));
    } else {
      assert c[1] == 'x' && c[0] == '0';
      var t := Tail2(c);
      NoNumberWithX(t);
    }
  }

  lemma NoNumberWithX(t: string)
    requires |t| == 2 && 'x' in t && (t[0] == 'x' || t[0] == '0')
    ensures PythonInt16(t) == None
  {
    if IsBlank(t[1]) {
      assert t[..1] == [t[0]];
      assert Trim(t) == Trim([t[0]]);
    }
  }

  // ----- uniform prefixes -----

  predicate Uniform(cut: bool, c: string) {
    if cut then HasPrefix(c) || c == "" else !HasPrefix(c)
  }

  lemma UniformChunk(cut: bool, c: string)
    requires AllHex(Digits(c)) && Uniform(cut, c)
    ensures ChunkBytes(if cut then Drop2(c) else c) == Some(NumberOf(Digits(c)))
  {
    ChunkIsNumber(Digits(c));
  }

  /** Cutting two characters off a number without a prefix loses bytes. */
  lemma CutChunk(c: string)
    requires AllHex(Digits(c)) && !HasPrefix(c)
    ensures ChunkBytes(Drop2(c)).Some? && |ChunkBytes(Drop2(c)).value| <= |NumberOf(Digits(c))|
    ensures c != "" ==> |ChunkBytes(Drop2(c)).value| < |NumberOf(Digits(c))|
  {
    ChunkIsNumber(Drop2(c));
  }

  lemma {:induction false} BytesExactly(cut: bool, chunks: seq<string>)
    requires forall i | 0 <= i < |chunks| :: AllHex(Digits(chunks[i]))
    ensures AllBytes(cut, chunks) == Some(NumbersOf(chunks))
            <==> forall i | 0 <= i < |chunks| :: Uniform(cut, chunks[i])
    ensures AllBytes(cut, chunks).Some? ==> |AllBytes(cut, chunks).value| <= |NumbersOf(chunks)|
    ensures (AllBytes(cut, chunks).Some? && |AllBytes(cut, chunks).value| == |NumbersOf(chunks)|)
            ==> AllBytes(cut, chunks) == Some(NumbersOf(chunks))
  {
    hide ChunkBytes, HexNumber, LE, Split, IsHex;
    if chunks != [] {
      var c, rest := chunks[0], chunks[1..];
      BytesExactly(cut, rest);
      assert (forall i | 0 <= i < |chunks| :: Uniform(cut, chunks[i]))
          <==> Uniform(cut, c) && forall i | 0 <= i < |rest| :: Uniform(cut, rest[i]) by {
        if Uniform(cut, c) && forall i | 0 <= i < |rest| :: Uniform(cut, rest[i]) {
          forall i | 0 <= i < |chunks| ensures Uniform(cut, chunks[i]) { if i > 0 { assert chunks[i] == rest[i - 1]; } }
        }
      }
      if Uniform(cut, c) {
        UniformChunk(cut, c);
        BytesAppend(NumberOf(Digits(c)), AllBytes(cut, rest), NumbersOf(rest));
      } else if cut {
        CutChunk(c);
      } else {
        PrefixIsNoNumber(c);
      }
    }
  }

  lemma BytesAppend(a: seq<int>, r: Option<seq<int>>, b: seq<int>)
    ensures r.Some? ==> (a + r.value == a + b <==> r.value == b)
  {
    if r.Some? && a + r.value == a + b {
      assert r.value == (a + r.value)[|a|..];
      assert b == (a + b)[|a|..];
    }
  }

  /**
   For every string of hexadecimal numbers, prefixed or not: the bytes of all numbers, each in half as many
   bytes as it has digits, come out if and only if the prefixes are uniform.
   */
  lemma ParseHexExactly(s: string)
    requires forall c | c in Split(s, ' ') :: AllHex(Digits(c))
    ensures ParseHex(s) == Some(NumbersOf(Split(s, ' ')))
            <==> forall i | 0 <= i < |Split(s, ' ')| :: Uniform(HasPrefix(s), Split(s, ' ')[i])
  {
    BytesExactly(HasPrefix(s), Split(s, ' '));
  }

  /** A second number without the prefix of the first loses its two leading digits. */
  lemma MixedPrefixesLoseDigits(x: string, y: string)
    requires AllHex(x) && AllHex(y) && |y| >= 2
    ensures ParseHex("0x" + x + [' '] + y) == Some(NumberOf(x) + NumberOf(y[2..]))
  {
    var a := "0x" + x;
    SplitAt(a, ' ', y);
    SplitNone(y, ' ');
    assert Drop2(a) == x;
    ChunkIsNumber(x);
    ChunkIsNumber(y[2..]);
    TwoChunks(a, y, NumberOf(x), NumberOf(y[2..]));
    assert (a + [' '] + y)[..2] == "0x";
  }

  lemma TwoChunks(a: string, b: string, m: seq<int>, n: seq<int>)
    requires ChunkBytes(Drop2(a)) == Some(m) && ChunkBytes(Drop2(b)) == Some(n)
    ensures AllBytes(true, [a] + [b]) == Some(m + n)
  {
    assert ([a] + [b])[1..] == [b] && [b][1..] == [];
    assert n + [] == n;
    assert AllBytes(true, [b]) == Some(n);
  }
}
