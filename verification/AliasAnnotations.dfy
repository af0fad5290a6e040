/** The spelling of alias annotations: which one names which declaration in which database. */
module AliasAnnotations {
  import opened Options
  import opened Texts
  import opened Sequences
  import opened StructTraversal

  function KindText(k: AliasKind): string {
    match k
    case X86_32 => "x86_32"
    case X86_64 => "x86_64"
    case AArch64 => "aarch64"
    case Win32 => "win32"
    case Win64 => "win64"
  }

  const FOR_STRUCTS := "alias-"
  const FOR_VARIABLES := "ioctl-alias-"

  /**
   The annotation reads prefix, database and name, with a hyphen between them; what follows another one is
   ignored.
   */
  ghost predicate SpellsAlias(s: string, prefix: string, a: Alias) {
    exists tail: string :: SpelledWith(s, prefix, a, tail)
  }

  predicate SpelledWith(s: string, prefix: string, a: Alias, tail: string) {
    && s == prefix + (KindText(a.kind) + ['-'] + (a.name + tail))
    && '-' !in a.name && (tail == "" || tail[0] == '-')
  }

  lemma KindTexts(k: AliasKind)
    ensures '-' !in KindText(k) && KindOf(KindText(k)) == Some(k)
  {
  }

  lemma KindRead(s: string, k: AliasKind)
    requires KindOf(s) == Some(k)
    ensures s == KindText(k)
  {
  }

  /** The first piece, and what is behind the separator. */
  lemma {:induction false} SplitHead(u: string)
    ensures var p := Split(u, '-');
            '-' !in p[0] && if |p| == 1 then u == p[0]
            else |p[0]| < |u| && u == p[0] + ['-'] + u[|p[0]| + 1..] && Split(u[|p[0]| + 1..], '-') == p[1..]
  {
    if u != "" {
      SplitHead(u[1..]);
      if u[0] == '-' { SplitAtHyphen(u); } else { SplitBehind(u); }
    }
  }

  lemma SplitAtHyphen(u: string)
    requires u != "" && u[0] == '-'
    ensures Split(u, '-')[0] == "" && |Split(u, '-')| > 1 && u == "" + ['-'] + u[1..]
            && Split(u[1..], '-') == Split(u, '-')[1..]
  {
    assert u == [u[0]] + u[1..];
    assert ([""] + Split(u[1..], '-'))[1..] == Split(u[1..], '-');
  }

  lemma SplitBehind(u: string)
    requires u != "" && u[0] != '-'
    requires var v := u[1..];
             var q := Split(v, '-');
             '-' !in q[0] && if |q| == 1 then v == q[0]
             else |q[0]| < |v| && v == q[0] + ['-'] + v[|q[0]| + 1..] && Split(v[|q[0]| + 1..], '-') == q[1..]
    ensures var p := Split(u, '-');
            '-' !in p[0] && if |p| == 1 then u == p[0]
            else |p[0]| < |u| && u == p[0] + ['-'] + u[|p[0]| + 1..] && Split(u[|p[0]| + 1..], '-') == p[1..]
  {
    var v := u[1..];
    var p, q := Split(u, '-'), Split(v, '-');
    assert u == [u[0]] + v;
    assert p[0] == [u[0]] + q[0] && p[1..] == q[1..] && |p| == |q|;
    hide Split;
    if |q| > 1 {
      var w := v[|q[0]| + 1..];
      assert u[|p[0]| + 1..] == w;
      Regroup([u[0]], q[0] + ['-'], w);
      Regroup([u[0]], q[0], ['-']);
    }
  }

  lemma StructSections(u: string)
    ensures Split(FOR_STRUCTS + u, '-') == ["alias"] + Split(u, '-')
  {
    var a := "alias";
    assert FOR_STRUCTS + u == a + ['-'] + u;
    SplitAt(a, '-', u);
  }

  lemma VariableSections(u: string)
    ensures Split(FOR_VARIABLES + u, '-') == ["ioctl", "alias"] + Split(u, '-')
  {
    var a := "ioctl";
    assert FOR_VARIABLES + u == a + ['-'] + (FOR_STRUCTS + u);
    SplitAt(a, '-', FOR_STRUCTS + u);
    StructSections(u);
    assert [a] + (["alias"] + Split(u, '-')) == ["ioctl", "alias"] + Split(u, '-');
  }

  /** What is read behind the prefix. */
  function ReadAlias(u: string): Option<Alias> {
    var p := Split(u, '-');
    match KindOf(p[0])
    case None => None
    case Some(k) => if |p| > 1 then Some(Alias(p[1], k)) else None
  }

  lemma ReadAliasSpelled(u: string, a: Alias, tail: string)
    requires u == KindText(a.kind) + ['-'] + (a.name + tail) && '-' !in a.name && (tail == "" || tail[0] == '-')
    ensures ReadAlias(u) == Some(a)
  {
    hide KindOf, KindText;
    KindTexts(a.kind);
    SplitAt(KindText(a.kind), '-', a.name + tail);
    if tail == "" {
      assert a.name + tail == a.name;
      SplitNone(a.name, '-');
    } else {
      assert a.name + tail == a.name + ['-'] + tail[1..];
      SplitAt(a.name, '-', tail[1..]);
    }
  }

  lemma ReadAliasIsSpelled(u: string) returns (tail: string)
    requires ReadAlias(u).Some?
    ensures var a := ReadAlias(u).value;
            u == KindText(a.kind) + ['-'] + (a.name + tail) && '-' !in a.name && (tail == "" || tail[0] == '-')
  {
    hide KindOf, KindText, Split;
    var p := Split(u, '-');
    SplitHead(u);
    KindRead(p[0], KindOf(p[0]).value);
    var v := u[|p[0]| + 1..];
    SplitHead(v);
    if |p| == 2 {
      tail := "";
      assert p[1] + tail == p[1];
    } else {
      tail := ['-'] + v[|p[1]| + 1..];
      Regroup(p[1], ['-'], v[|p[1]| + 1..]);
    }
  }

  lemma SpelledHasPrefix(s: string, prefix: string, a: Alias)
    ensures SpellsAlias(s, prefix, a) ==> prefix <= s
  {
    if tail: string :| SpelledWith(s, prefix, a, tail) {
      assert prefix <= prefix + (KindText(a.kind) + ['-'] + (a.name + tail));
    }
  }

  /** The annotation of an alias is recognised exactly as it is spelled, for structs and for variables. */
  lemma AliasesRecognised(s: string, prefix: string, at: nat)
    requires (prefix == FOR_STRUCTS && at == 1) || (prefix == FOR_VARIABLES && at == 2)
    ensures forall a :: Annotated(s, prefix, at) == AliasTo(a) <==> SpellsAlias(s, prefix, a)
    ensures Annotated(s, prefix, at) == UnknownAlias <==> prefix <= s && forall a :: !SpellsAlias(s, prefix, a)
    ensures Annotated(s, prefix, at) == FexMatch <==> s == "fex-match"
  {
    assert !(prefix <= "fex-match") by { assert prefix[0] != "fex-match"[0]; }
    if prefix <= s {
      var u := s[|prefix|..];
      assert s == prefix + u;
      if prefix == FOR_STRUCTS { StructSections(u); } else { VariableSections(u); }
      hide KindText, KindOf, Split;
      assert Annotated(s, prefix, at) == match ReadAlias(u) case None => UnknownAlias case Some(a) => AliasTo(a);
      forall a
        ensures ReadAlias(u) == Some(a) <==> SpellsAlias(s, prefix, a)
      {
        BehindPrefix(s, prefix, u, a);
      }
    } else {
      forall a ensures SpellsAlias(s, prefix, a) ==> prefix <= s { SpelledHasPrefix(s, prefix, a); }
    }
  }

  lemma BehindPrefix(s: string, prefix: string, u: string, a: Alias)
    requires s == prefix + u
    ensures ReadAlias(u) == Some(a) <==> SpellsAlias(s, prefix, a)
  {
    hide KindText, ReadAlias;
    if ReadAlias(u) == Some(a) {
      var tail := ReadAliasIsSpelled(u);
      assert SpelledWith(s, prefix, a, tail);
    }
    if tail: string :| SpelledWith(s, prefix, a, tail) {
      PrefixInjective(prefix, u, KindText(a.kind) + ['-'] + (a.name + tail));
      ReadAliasSpelled(u, a, tail);
    }
  }
}
