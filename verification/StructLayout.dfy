/** The layout of the argument structs and the memory they live in. */
module StructLayout {
  import opened CTypes
  import opened Bytes

  /** Sizes and alignments, shared by guest and host. */
  datatype Abi = Abi(size: CType -> nat, align: CType -> nat)

  ghost predicate ValidAbi(abi: Abi) {
    && (forall t :: abi.align(t) > 0)
    && (forall t :: IsFunctionPointer(t) ==> abi.size(t) == 8)
    && (forall t :: abi.size(Unqualified(t)) == abi.size(t))
  }

  datatype Member = Member(name: string, ctype: CType)

  function AlignUp(n: nat, a: nat): (r: nat)
    requires a > 0
    ensures n <= r < n + a && r % a == 0
  {
    if n % a == 0 then n
    else
      assert (n + (a - n % a)) % a == 0 by { AlignedUp(n, a); }
      n + (a - n % a)
  }

  lemma AlignedUp(n: nat, a: nat)
    requires a > 0
    ensures (n + (a - n % a)) % a == 0
  {
    var q := n / a + 1;
    assert n + (a - n % a) == q * a;
    MultipleMod(q, a);
  }

  lemma MultipleMod(q: nat, a: nat)
    requires a > 0
    ensures (q * a) % a == 0
  {
    var x := q * a;
    var k := q - x / a;
    assert k * a == x % a;
    assert k >= 1 ==> k * a >= a;
    assert k <= -1 ==> k * a + a <= 0;
  }

  /** The first free byte behind the first `k` members. */
  function End(abi: Abi, ms: seq<Member>, k: nat): nat
    requires ValidAbi(abi) && k <= |ms|
    decreases k, 1
  {
    if k == 0 then 0 else Offset(abi, ms, k - 1) + abi.size(ms[k - 1].ctype)
  }

  function Offset(abi: Abi, ms: seq<Member>, k: nat): nat
    requires ValidAbi(abi) && k < |ms|
    decreases k, 2
  {
    AlignUp(End(abi, ms, k), abi.align(ms[k].ctype))
  }

  function MaxAlign(abi: Abi, ms: seq<Member>): (a: nat)
    requires ValidAbi(abi)
    ensures a > 0
  {
    if ms == [] then 1
    else
      var a, b := abi.align(ms[0].ctype), MaxAlign(abi, ms[1..]);
      if a > b then a else b
  }

  function StructSize(abi: Abi, ms: seq<Member>): nat
    requires ValidAbi(abi)
  {
    AlignUp(End(abi, ms, |ms|), MaxAlign(abi, ms))
  }

  /** Every member lies behind the ones before it. */
  lemma {:induction false} EndMonotone(abi: Abi, ms: seq<Member>, i: nat, j: nat)
    requires ValidAbi(abi) && i <= j <= |ms|
    ensures End(abi, ms, i) <= End(abi, ms, j)
    decreases j
  {
    if i < j { EndMonotone(abi, ms, i, j - 1); }
  }

  /** Fields are in bounds, aligned and disjoint. */
  lemma FieldsDisjoint(abi: Abi, ms: seq<Member>, i: nat, j: nat)
    requires ValidAbi(abi) && i < |ms| && j < |ms| && i != j
    ensures Offset(abi, ms, i) + abi.size(ms[i].ctype) <= Offset(abi, ms, j)
            || Offset(abi, ms, j) + abi.size(ms[j].ctype) <= Offset(abi, ms, i)
  {
    if i < j { EndMonotone(abi, ms, i + 1, j); } else { EndMonotone(abi, ms, j + 1, i); }
  }

  lemma FieldInBounds(abi: Abi, ms: seq<Member>, k: nat)
    requires ValidAbi(abi) && k < |ms|
    ensures Offset(abi, ms, k) + abi.size(ms[k].ctype) <= StructSize(abi, ms)
    ensures Offset(abi, ms, k) % abi.align(ms[k].ctype) == 0
  {
    EndMonotone(abi, ms, k + 1, |ms|);
  }

  // ----- memory -----

  type Memory = seq<byte>

  function Write(m: Memory, off: nat, v: seq<byte>): (m': Memory)
    requires off + |v| <= |m|
    ensures |m'| == |m|
  {
    m[..off] + v + m[off + |v|..]
  }

  function Read(m: Memory, off: nat, n: nat): (v: seq<byte>)
    requires off + n <= |m|
    ensures |v| == n
  {
    m[off..off + n]
  }

  lemma ReadBack(m: Memory, off: nat, v: seq<byte>)
    requires off + |v| <= |m|
    ensures Read(Write(m, off, v), off, |v|) == v
  {
  }

  lemma ReadElsewhere(m: Memory, off: nat, v: seq<byte>, off': nat, n: nat)
    requires off + |v| <= |m| && off' + n <= |m|
    requires off + |v| <= off' || off' + n <= off
    ensures Read(Write(m, off, v), off', n) == Read(m, off', n)
  {
    var m' := Write(m, off, v);
    assert forall i | off' <= i < off' + n :: m'[i] == m[i];
  }

  // ----- fields by name -----

  /** The position of the first member called `name`, or the number of members. */
  function Find(ms: seq<Member>, name: string): (k: nat)
    ensures k <= |ms|
    ensures k < |ms| ==> ms[k].name == name
    ensures forall j | 0 <= j < k :: ms[j].name != name
  {
    if ms == [] then 0 else if ms[0].name == name then 0 else 1 + Find(ms[1..], name)
  }

  predicate DistinctNames(ms: seq<Member>) {
    forall i, j | 0 <= i < j < |ms| :: ms[i].name != ms[j].name
  }

  lemma FindDistinct(ms: seq<Member>, k: nat)
    requires DistinctNames(ms) && k < |ms|
    ensures Find(ms, ms[k].name) == k
  {
  }
}
