/** When two spellings are one type, said without canonical types; canonical types decide it. */
module SameTypes {
  import opened CTypes

  /** The type behind the typedefs at the top, as it is written there. */
  function Behind(t: CType): CType
    decreases t
  {
    match t
    case Named(_, Typedef(_, m)) => Behind(m)
    case _ => t
  }

  /** It is constant itself or by a typedef on the way; functions are not. */
  predicate ConstSomewhere(t: CType)
    decreases t
  {
    match t
    case Named(c, Typedef(_, m)) => (c && !Behind(m).Fn?) || ConstSomewhere(m)
    case Named(c, Builtin(_)) => c
    case Ptr(c, _) => c
    case Fn(_, _, _) => false
  }

  /** Both are constant or both are not, and what they are behind typedefs is the same. */
  ghost predicate SameType(t: CType, u: CType)
    decreases Size(t) + Size(u), 1
  {
    (ConstSomewhere(t) <==> ConstSomewhere(u)) && SameUnqualified(t, u)
  }

  /** The qualifier at the top is not looked at; so it is for parameters. */
  ghost predicate SameUnqualified(t: CType, u: CType)
    decreases Size(t) + Size(u), 0
  {
    BehindIsSmaller(t);
    BehindIsSmaller(u);
    match (Behind(t), Behind(u))
    case (Named(_, s), Named(_, s')) => s == s'
    case (Ptr(_, p), Ptr(_, p')) => SameType(p, p')
    case (Fn(r, ps, v), Fn(r', ps', v')) =>
      && SameType(r, r') && |ps| == |ps'| && v == v'
      && forall i | 0 <= i < |ps| :: ParamSize(ps, i); ParamSize(ps', i); SameUnqualified(ps[i], ps'[i])
    case _ => false
  }

  // ----- a measure -----

  function Size(t: CType): nat
    decreases t
  {
    match t
    case Named(_, Typedef(_, m)) => 1 + Size(m)
    case Named(_, Builtin(_)) => 1
    case Ptr(_, p) => 1 + Size(p)
    case Fn(r, ps, _) => 1 + Size(r) + Sizes(ps)
  }

  function Sizes(ps: seq<CType>): nat
    decreases ps
  {
    if ps == [] then 0 else Size(ps[0]) + Sizes(ps[1..])
  }

  lemma {:induction false} ParamSize(ps: seq<CType>, i: nat)
    requires i < |ps|
    ensures Size(ps[i]) <= Sizes(ps)
  {
    if i > 0 { ParamSize(ps[1..], i - 1); }
  }

  lemma {:induction false} BehindIsSmaller(t: CType)
    ensures Size(Behind(t)) <= Size(t)
    ensures !(Behind(t).Named? && Behind(t).spec.Typedef?)
    decreases t
  {
    match t
    case Named(_, Typedef(_, m)) => BehindIsSmaller(m);
    case _ =>
  }

  // ----- canonical types -----

  lemma {:induction false} CanonicalBehind(t: CType)
    ensures WithoutConst(Canonical(t)) == WithoutConst(Canonical(Behind(t)))
    ensures IsConst(t) <==> ConstSomewhere(t)
    decreases t
  {
    match t
    case Named(c, Typedef(_, m)) =>
      CanonicalBehind(m);
      BehindIsSmaller(m);
      assert Canonical(t) == WithConst(Canonical(m), c);
      assert Canonical(m).Fn? <==> Behind(m).Fn?;
    case _ =>
  }

  lemma ConstAndRest(t: CType, u: CType)
    ensures Canonical(t) == Canonical(u)
            <==> (IsConst(t) <==> IsConst(u)) && WithoutConst(Canonical(t)) == WithoutConst(Canonical(u))
  {
  }

  /** Two types are the same if and only if their canonical types are equal. */
  lemma {:induction false} SameTypeExactly(t: CType, u: CType)
    ensures SameType(t, u) <==> Canonical(t) == Canonical(u)
    decreases Size(t) + Size(u), 1
  {
    CanonicalBehind(t);
    CanonicalBehind(u);
    ConstAndRest(t, u);
    SameUnqualifiedExactly(t, u);
  }

  lemma {:induction false} SameUnqualifiedExactly(t: CType, u: CType)
    ensures SameUnqualified(t, u) <==> WithoutConst(Canonical(t)) == WithoutConst(Canonical(u))
    decreases Size(t) + Size(u), 0
  {
    BehindIsSmaller(t);
    BehindIsSmaller(u);
    CanonicalBehind(t);
    CanonicalBehind(u);
    match (Behind(t), Behind(u))
    case (Ptr(c, p), Ptr(c', p')) => SameTypeExactly(p, p');
    case (Fn(r, ps, v), Fn(r', ps', v')) =>
      SameTypeExactly(r, r');
      if |ps| == |ps'| {
        forall i | 0 <= i < |ps|
          ensures SameUnqualified(ps[i], ps'[i]) <==> WithoutConst(Canonical(ps[i])) == WithoutConst(Canonical(ps'[i]))
        {
          ParamSize(ps, i);
          ParamSize(ps', i);
          SameUnqualifiedExactly(ps[i], ps'[i]);
        }
        SameParams(r, ps, v, r', ps', v');
      }
    case _ =>
  }

  lemma SameParams(r: CType, ps: seq<CType>, v: bool, r': CType, ps': seq<CType>, v': bool)
    requires |ps| == |ps'|
    ensures Canonical(Fn(r, ps, v)) == Canonical(Fn(r', ps', v'))
            <==> Canonical(r) == Canonical(r') && v == v'
                 && forall i | 0 <= i < |ps| :: WithoutConst(Canonical(ps[i])) == WithoutConst(Canonical(ps'[i]))
  {
    var f, f' := Canonical(Fn(r, ps, v)), Canonical(Fn(r', ps', v'));
    if f == f' {
      forall i | 0 <= i < |ps|
        ensures WithoutConst(Canonical(ps[i])) == WithoutConst(Canonical(ps'[i]))
      {
        assert f.params[i] == f'.params[i];
      }
    }
  }
}
