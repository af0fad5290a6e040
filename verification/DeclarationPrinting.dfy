/**
 The declarator-printing theorem: putting a name before the `)` of the first `(*)` of a printed type,
 or else behind the type, declares that name with that type exactly when the type is `Declarable`.
 */
module DeclarationPrinting {
  import opened Options
  import opened CTypes
  import opened Declarators

  /** A chain of pointers down to a named type. */
  predicate PointerChain(t: CType) {
    match t
    case Named(_, _) => true
    case Ptr(_, p) => PointerChain(p)
    case Fn(_, _, _) => false
  }

  /** The types `format_decl` declares correctly. */
  predicate Declarable(t: CType) {
    PointerChain(t) || (t.Ptr? && !t.isConst && t.pointee.Fn?)
  }

  // ----- types and declarations say the same -----

  lemma {:induction false} DeclaredToDecl(t: CType, d: Declarator)
    ensures Declared(ToDecl(t, d)) == Build(t, d)
    decreases t
  {
    match t
    case Named(_, _) =>
    case Ptr(c, p) => DeclaredToDecl(p, DPtr(c, d));
    case Fn(r, ps, v) =>
      DeclaredToDecl(r, DFn(d, ToDecls(ps), v));
      ParamTypesToDecls(ps);
  }

  lemma {:induction false} ParamTypesToDecls(ps: seq<CType>)
    ensures ParamTypes(ToDecls(ps)) == ps
    decreases ps
  {
    if ps != [] {
      DeclaredToDecl(ps[0], DName(None));
      ParamTypesToDecls(ps[1..]);
      assert ToDecls(ps)[1..] == ToDecls(ps[1..]);
    }
  }

  lemma {:induction false} ToDeclWellFormed(t: CType, d: Declarator)
    requires WellFormed(t) && WellFormedD(d) && !(t.Fn? && d.DFn?)
    ensures WellFormedDecl(ToDecl(t, d))
    decreases t
  {
    match t
    case Named(_, _) =>
    case Ptr(c, p) => ToDeclWellFormed(p, DPtr(c, d));
    case Fn(r, ps, v) =>
      ToDeclsWellFormed(ps);
      ToDeclWellFormed(r, DFn(d, ToDecls(ps), v));
  }

  lemma {:induction false} ToDeclsWellFormed(ps: seq<CType>)
    requires forall i | 0 <= i < |ps| :: WellFormed(ps[i])
    ensures forall i | 0 <= i < |ToDecls(ps)| :: WellFormedDecl(ToDecls(ps)[i])
    decreases ps
  {
    if ps != [] {
      ToDeclWellFormed(ps[0], DName(None));
      ToDeclsWellFormed(ps[1..]);
    }
  }

  /** A printed type parses back to the type. */
  lemma SignatureParses(t: CType)
    requires WellFormed(t)
    ensures ParseDeclaration(Signature(t)) == Some(Meaning(None, t))
  {
    var decl := ToDecl(t, DName(None));
    StripDeclTokens(decl);
    ToDeclWellFormed(t, DName(None));
    DeclBack(decl, []);
    assert DeclTokens(decl, []) + [] == DeclTokens(decl, []);
    DeclaredToDecl(t, DName(None));
  }

  // ----- the first `(*)`, found in the declaration instead of in its tokens -----

  function FillD(d: Declarator, name: string): Option<Declarator>
    decreases d
  {
    match d
    case DName(_) => None
    case DPtr(c, i) => (match FillD(i, name) case None => None case Some(i') => Some(DPtr(c, i')))
    case DFn(i, ps, v) =>
      if i == HOLE then Some(DFn(DPtr(false, DName(Some(name))), ps, v))
      else match FillD(i, name)
        case Some(i') => Some(DFn(i', ps, v))
        case None => match FillParams(ps, name)
          case Some(ps') => Some(DFn(i, ps', v))
          case None => None
  }

  function FillIn(decl: Decl, name: string): Option<Declarator>
    decreases decl
  {
    FillD(decl.d, name)
  }

  function FillParams(ps: seq<Decl>, name: string): Option<seq<Decl>>
    decreases ps
  {
    if ps == [] then None
    else match FillIn(ps[0], name)
      case Some(d') => Some([ps[0].(d := d')] + ps[1..])
      case None => match FillParams(ps[1..], name)
        case Some(qs) => Some([ps[0]] + qs)
        case None => None
  }

  function Prefixed(a: seq<Token>, r: Option<seq<Token>>): Option<seq<Token>> {
    match r
    case None => None
    case Some(b) => Some(a + b)
  }

  lemma InsertPeel(a: seq<Token>, rest: seq<Token>, name: string)
    requires TLParen !in a
    ensures InsertName(a + rest, name) == Prefixed(a, InsertName(rest, name))
  {
    if a == [] {
      assert a + rest == rest;
      if InsertName(rest, name).Some? {
        assert [] + InsertName(rest, name).value == InsertName(rest, name).value;
      }
    } else {
      var ts := a + rest;
      assert ts[1..] == a[1..] + rest;
      InsertPeel(a[1..], rest, name);
      if InsertName(rest, name).Some? {
        assert [a[0]] + (a[1..] + InsertName(rest, name).value) == a + InsertName(rest, name).value;
      }
    }
  }

  lemma InsertParen(rest: seq<Token>, name: string)
    requires !(|rest| >= 2 && rest[0] == TStar && rest[1] == TRParen)
    ensures InsertName([TLParen] + rest, name) == Prefixed([TLParen], InsertName(rest, name))
  {
    assert ([TLParen] + rest)[1..] == rest;
  }

  lemma PrefixedTwice(a: seq<Token>, b: seq<Token>, r: Option<seq<Token>>)
    ensures Prefixed(a, Prefixed(b, r)) == Prefixed(a + b, r)
  {
    if r.Some? {
      assert a + (b + r.value) == a + b + r.value;
    }
  }

  /** What inserting into printed declarator `d`, followed by `rest`, gives. */
  function InsertedD(d: Declarator, rest: seq<Token>, name: string): Option<seq<Token>> {
    match FillD(d, name)
    case Some(d') => Some(DToks(d', SP) + rest)
    case None => Prefixed(DToks(d, SP), InsertName(rest, name))
  }

  function InsertedParams(ps: seq<Decl>, v: bool, rest: seq<Token>, name: string): Option<seq<Token>> {
    match FillParams(ps, name)
    case Some(ps') => Some(ParamToks(ps', v, SP) + rest)
    case None => Prefixed(ParamToks(ps, v, SP), InsertName(rest, name))
  }

  function InsertedMoreParams(ps: seq<Decl>, v: bool, rest: seq<Token>, name: string): Option<seq<Token>> {
    match FillParams(ps, name)
    case Some(ps') => Some(MoreParamToks(ps', v, SP) + rest)
    case None => Prefixed(MoreParamToks(ps, v, SP), InsertName(rest, name))
  }

  lemma {:induction false} InsertIntoDeclarator(d: Declarator, rest: seq<Token>, name: string)
    ensures InsertName(DToks(d, SP) + rest, name) == InsertedD(d, rest, name)
    decreases d, 1
  {
    match d
    case DName(_) => InsertPeel(DToks(d, SP), rest, name);
    case DPtr(c, i) =>
      InsertIntoDeclarator(i, rest, name);
      InsertIntoPointer(c, i, rest, name);
    case DFn(i, ps, v) =>
      var tail := [TLParen] + (ParamToks(ps, v, SP) + ([TRParen] + rest));
      InsertIntoGroup(i, tail, name);
      InsertIntoParams(ps, v, [TRParen] + rest, name);
      InsertIntoFunction(i, ps, v, rest, tail, name);
  }

  lemma {:induction false} InsertIntoPointer(c: bool, i: Declarator, rest: seq<Token>, name: string)
    requires InsertName(DToks(i, SP) + rest, name) == InsertedD(i, rest, name)
    ensures InsertName(DToks(DPtr(c, i), SP) + rest, name) == InsertedD(DPtr(c, i), rest, name)
  {
    var q := [TStar] + (if c then [TConst] + (if i == DName(None) then [] else SP) else []);
    assert DToks(DPtr(c, i), SP) + rest == q + (DToks(i, SP) + rest);
    InsertPeel(q, DToks(i, SP) + rest, name);
    match FillD(i, name)
    case None => PrefixedTwice(q, DToks(i, SP), InsertName(rest, name));
    case Some(i') => assert q + (DToks(i', SP) + rest) == q + DToks(i', SP) + rest;
  }

  /** The group around the inner declarator; a hole is the group `(*)` itself. */
  function InsertedGroup(i: Declarator, rest: seq<Token>, name: string): Option<seq<Token>> {
    if i == HOLE then Some([TLParen, TStar, TIdent(name), TRParen] + rest)
    else match FillD(i, name)
      case Some(i') => Some(Group(i', SP) + rest)
      case None => Prefixed(Group(i, SP), InsertName(rest, name))
  }

  lemma {:induction false} InsertIntoGroup(i: Declarator, rest: seq<Token>, name: string)
    ensures InsertName(Group(i, SP) + rest, name) == InsertedGroup(i, rest, name)
    decreases i, 2
  {
    if i == HOLE {
      assert Group(i, SP) + rest == [TLParen, TStar, TRParen] + rest;
      assert ([TLParen, TStar, TRParen] + rest)[2..] == [TRParen] + rest;
      assert [TLParen, TStar, TIdent(name)] + ([TRParen] + rest) == [TLParen, TStar, TIdent(name), TRParen] + rest;
    } else if i.DPtr? {
      InsertIntoDeclarator(i, [TRParen] + rest, name);
      var us := DToks(i, SP) + ([TRParen] + rest);
      assert Group(i, SP) + rest == [TLParen] + us;
      assert !(us[0] == TStar && us[1] == TRParen) by { NotHole(i, [TRParen] + rest); }
      InsertParen(us, name);
      InsertPeel([TRParen], rest, name);
      GroupAssembled(i, rest, name);
    } else {
      InsertIntoDeclarator(i, rest, name);
      FillKeepsShape(i, name);
    }
  }

  lemma NotHole(i: Declarator, rest: seq<Token>)
    requires i.DPtr? && i != HOLE
    ensures var us := DToks(i, SP) + rest; |us| > 1 ==> us[1] != TRParen
    ensures |DToks(i, SP)| > 1
  {
    var DPtr(c, j) := i;
    DToksSpaced(j);
  }

  lemma DToksSpaced(d: Declarator)
    ensures d != DName(None) ==> DToks(d, SP) != [] && StartsDeclarator(DToks(d, SP)[0])
  {
    if d.DFn? {
      DToksSpaced(d.inner);
    }
  }

  lemma FillKeepsShape(d: Declarator, name: string)
    ensures FillD(d, name).Some? ==> FillD(d, name).value.DPtr? == d.DPtr? && FillD(d, name).value.DFn? == d.DFn?
  {
  }

  lemma {:induction false} GroupAssembled(i: Declarator, rest: seq<Token>, name: string)
    requires i.DPtr? && i != HOLE
    ensures Prefixed([TLParen], match FillD(i, name)
                                case Some(i') => Some(DToks(i', SP) + ([TRParen] + rest))
                                case None => Prefixed(DToks(i, SP), Prefixed([TRParen], InsertName(rest, name))))
            == InsertedGroup(i, rest, name)
  {
    FillKeepsShape(i, name);
    match FillD(i, name)
    case Some(i') => assert [TLParen] + (DToks(i', SP) + ([TRParen] + rest)) == Group(i', SP) + rest;
    case None =>
      PrefixedTwice(DToks(i, SP), [TRParen], InsertName(rest, name));
      PrefixedTwice([TLParen], DToks(i, SP) + [TRParen], InsertName(rest, name));
      assert [TLParen] + (DToks(i, SP) + [TRParen]) == Group(i, SP);
  }

  lemma ParamsDoNotStartWithStar(ps: seq<Decl>, v: bool, rest: seq<Token>)
    requires rest != [] && rest[0] == TRParen
    ensures (ParamToks(ps, v, SP) + rest)[0] != TStar
  {
  }

  lemma {:induction false} InsertIntoFunction(i: Declarator, ps: seq<Decl>, v: bool, rest: seq<Token>,
      tail: seq<Token>, name: string)
    requires tail == [TLParen] + (ParamToks(ps, v, SP) + ([TRParen] + rest))
    requires InsertName(Group(i, SP) + tail, name) == InsertedGroup(i, tail, name)
    requires InsertName(ParamToks(ps, v, SP) + ([TRParen] + rest), name)
             == InsertedParams(ps, v, [TRParen] + rest, name)
    ensures InsertName(DToks(DFn(i, ps, v), SP) + rest, name) == InsertedD(DFn(i, ps, v), rest, name)
  {
    FunctionText(i, ps, v, rest);
    if i == HOLE {
      FunctionText(DPtr(false, DName(Some(name))), ps, v, rest);
      NamedGroup(name);
    } else if FillD(i, name).Some? {
      FunctionText(FillD(i, name).value, ps, v, rest);
    } else {
      ParamsDoNotStartWithStar(ps, v, [TRParen] + rest);
      InsertParen(ParamToks(ps, v, SP) + ([TRParen] + rest), name);
      InsertPeel([TRParen], rest, name);
      FunctionAssembled(i, ps, v, rest, name);
    }
  }

  lemma FunctionText(i: Declarator, ps: seq<Decl>, v: bool, rest: seq<Token>)
    ensures DToks(DFn(i, ps, v), SP) + rest
            == Group(i, SP) + ([TLParen] + (ParamToks(ps, v, SP) + ([TRParen] + rest)))
  {
  }

  lemma NamedGroup(name: string)
    ensures Group(DPtr(false, DName(Some(name))), SP) == [TLParen, TStar, TIdent(name), TRParen]
  {
    assert DToks(DPtr(false, DName(Some(name))), SP) == [TStar] + DToks(DName(Some(name)), SP);
  }

  lemma {:induction false} FunctionAssembled(i: Declarator, ps: seq<Decl>, v: bool, rest: seq<Token>, name: string)
    ensures Prefixed(Group(i, SP), Prefixed([TLParen], match FillParams(ps, name)
              case Some(ps') => Some(ParamToks(ps', v, SP) + ([TRParen] + rest))
              case None => Prefixed(ParamToks(ps, v, SP), Prefixed([TRParen], InsertName(rest, name)))))
            == match FillParams(ps, name)
               case Some(ps') => Some(DToks(DFn(i, ps', v), SP) + rest)
               case None => Prefixed(DToks(DFn(i, ps, v), SP), InsertName(rest, name))
  {
    match FillParams(ps, name)
    case Some(ps') =>
      FunctionText(i, ps', v, rest);
    case None =>
      var r := InsertName(rest, name);
      PrefixedTwice(ParamToks(ps, v, SP), [TRParen], r);
      PrefixedTwice([TLParen], ParamToks(ps, v, SP) + [TRParen], r);
      PrefixedTwice(Group(i, SP), [TLParen] + (ParamToks(ps, v, SP) + [TRParen]), r);
      assert Group(i, SP) + ([TLParen] + (ParamToks(ps, v, SP) + [TRParen])) == DToks(DFn(i, ps, v), SP);
  }

  /** The tokens of a declaration up to its declarator. */
  function Lead(decl: Decl): seq<Token> {
    (if decl.isConst then [TConst] + SP else []) + [TSpec(decl.spec)] + (if decl.d == DName(None) then [] else SP)
  }

  lemma FillKeepsLead(decl: Decl, name: string)
    ensures FillD(decl.d, name).Some? ==> Lead(decl.(d := FillD(decl.d, name).value)) == Lead(decl)
    ensures TLParen !in Lead(decl)
    ensures DeclTokens(decl, SP) == Lead(decl) + DToks(decl.d, SP)
  {
    FillKeepsShape(decl.d, name);
  }

  function InsertedDecl(decl: Decl, rest: seq<Token>, name: string): Option<seq<Token>> {
    match FillD(decl.d, name)
    case Some(d') => Some(DeclTokens(decl.(d := d'), SP) + rest)
    case None => Prefixed(DeclTokens(decl, SP), InsertName(rest, name))
  }

  lemma {:induction false} InsertIntoDecl(decl: Decl, rest: seq<Token>, name: string)
    ensures InsertName(DeclTokens(decl, SP) + rest, name) == InsertedDecl(decl, rest, name)
    decreases decl
  {
    InsertIntoDeclarator(decl.d, rest, name);
    FillKeepsLead(decl, name);
    assert DeclTokens(decl, SP) + rest == Lead(decl) + (DToks(decl.d, SP) + rest);
    InsertPeel(Lead(decl), DToks(decl.d, SP) + rest, name);
    match FillD(decl.d, name)
    case Some(d') => LeadAssembled(decl, d', rest, name);
    case None => PrefixedTwice(Lead(decl), DToks(decl.d, SP), InsertName(rest, name));
  }

  lemma LeadAssembled(decl: Decl, d': Declarator, rest: seq<Token>, name: string)
    requires FillD(decl.d, name) == Some(d')
    ensures Lead(decl) + (DToks(d', SP) + rest) == DeclTokens(decl.(d := d'), SP) + rest
  {
    FillKeepsLead(decl, name);
    FillKeepsLead(decl.(d := d'), name);
  }

  lemma {:induction false} InsertIntoParams(ps: seq<Decl>, v: bool, rest: seq<Token>, name: string)
    ensures InsertName(ParamToks(ps, v, SP) + rest, name) == InsertedParams(ps, v, rest, name)
    decreases ps
  {
    if ps == [] {
      InsertPeel(ParamToks(ps, v, SP), rest, name);
    } else {
      var more := MoreParamToks(ps[1..], v, SP);
      assert ParamToks(ps, v, SP) + rest == DeclTokens(ps[0], SP) + (more + rest);
      InsertIntoDecl(ps[0], more + rest, name);
      InsertIntoMoreParams(ps[1..], v, rest, name);
      ParamsAssembled(ps, v, rest, name);
    }
  }

  lemma {:induction false} ParamsAssembled(ps: seq<Decl>, v: bool, rest: seq<Token>, name: string)
    requires ps != []
    requires InsertName(MoreParamToks(ps[1..], v, SP) + rest, name) == InsertedMoreParams(ps[1..], v, rest, name)
    ensures InsertedDecl(ps[0], MoreParamToks(ps[1..], v, SP) + rest, name) == InsertedParams(ps, v, rest, name)
  {
    var more := MoreParamToks(ps[1..], v, SP);
    if FillD(ps[0].d, name).Some? {
      var p := ps[0].(d := FillD(ps[0].d, name).value);
      var qs := [p] + ps[1..];
      assert FillIn(ps[0], name) == FillD(ps[0].d, name);
      assert FillParams(ps, name) == Some(qs);
      assert qs[1..] == ps[1..];
      assert DeclTokens(p, SP) + (more + rest) == ParamToks(qs, v, SP) + rest;
    } else if FillParams(ps[1..], name).Some? {
      var qs := FillParams(ps[1..], name).value;
      assert FillIn(ps[0], name) == None;
      assert FillParams(ps, name) == Some([ps[0]] + qs);
      assert ([ps[0]] + qs)[1..] == qs;
      assert DeclTokens(ps[0], SP) + (MoreParamToks(qs, v, SP) + rest) == ParamToks([ps[0]] + qs, v, SP) + rest;
    } else {
      assert FillIn(ps[0], name) == None;
      PrefixedTwice(DeclTokens(ps[0], SP), more, InsertName(rest, name));
    }
  }

  lemma {:induction false} InsertIntoMoreParams(ps: seq<Decl>, v: bool, rest: seq<Token>, name: string)
    ensures InsertName(MoreParamToks(ps, v, SP) + rest, name) == InsertedMoreParams(ps, v, rest, name)
    decreases ps
  {
    if ps == [] {
      InsertPeel(MoreParamToks(ps, v, SP), rest, name);
    } else {
      var more := MoreParamToks(ps[1..], v, SP);
      InsertIntoDecl(ps[0], more + rest, name);
      InsertIntoMoreParams(ps[1..], v, rest, name);
      ParamsAssembled(ps, v, rest, name);
      assert ParamToks(ps, v, SP) + rest == DeclTokens(ps[0], SP) + (more + rest);
      MoreAssembled(ps, v, rest, name);
    }
  }

  lemma MoreText(ps: seq<Decl>, v: bool, rest: seq<Token>)
    requires ps != []
    ensures MoreParamToks(ps, v, SP) + rest == [TComma] + (ParamToks(ps, v, SP) + rest)
  {
  }

  lemma {:induction false} MoreAssembled(ps: seq<Decl>, v: bool, rest: seq<Token>, name: string)
    requires ps != []
    requires InsertName(ParamToks(ps, v, SP) + rest, name) == InsertedParams(ps, v, rest, name)
    ensures InsertName(MoreParamToks(ps, v, SP) + rest, name) == InsertedMoreParams(ps, v, rest, name)
  {
    var us := ParamToks(ps, v, SP);
    MoreText(ps, v, rest);
    InsertPeel([TComma], us + rest, name);
    match FillParams(ps, name)
    case Some(qs) => MoreText(qs, v, rest);
    case None =>
      MoreText(ps, v, []);
      PrefixedTwice([TComma], us, InsertName(rest, name));
      assert us + [] == us && MoreParamToks(ps, v, SP) + [] == MoreParamToks(ps, v, SP);
  }

  // ----- where the name lands -----

  lemma {:induction false} FillThrough(t: CType, d: Declarator, d': Declarator, name: string)
    requires FillD(d, name) == Some(d')
    ensures FillD(ToDecl(t, d).d, name) == Some(ToDecl(t, d').d)
    ensures ToDecl(t, d') == ToDecl(t, d).(d := ToDecl(t, d').d)
    decreases t
  {
    match t
    case Named(_, _) =>
    case Ptr(c, p) => FillThrough(p, DPtr(c, d), DPtr(c, d'), name);
    case Fn(r, ps, v) => FillThrough(r, DFn(d, ToDecls(ps), v), DFn(d', ToDecls(ps), v), name);
  }

  function TopName(d: Declarator): Option<string> {
    match d
    case DName(n) => n
    case DPtr(_, i) => TopName(i)
    case DFn(i, _, _) => TopName(i)
  }

  predicate TopHole(d: Declarator) {
    match d
    case DName(_) => false
    case DPtr(_, i) => TopHole(i)
    case DFn(i, _, _) => i == HOLE || TopHole(i)
  }

  lemma {:induction false} BuildName(t: CType, d: Declarator)
    ensures Build(t, d).name == TopName(d)
    decreases d
  {
    match d
    case DName(_) =>
    case DPtr(c, i) => BuildName(Ptr(c, t), i);
    case DFn(i, ps, v) => BuildName(Fn(t, ParamTypes(ps), v), i);
  }

  /** Without a hole on the spine the name goes to a parameter and the declared name stays as it was. */
  lemma {:induction false} FillElsewhere(d: Declarator, name: string)
    requires !TopHole(d) && FillD(d, name).Some?
    ensures TopName(FillD(d, name).value) == TopName(d)
  {
    match d
    case DName(_) =>
    case DPtr(_, i) => FillElsewhere(i, name);
    case DFn(i, _, _) => if FillD(i, name).Some? { FillElsewhere(i, name); }
  }

  lemma {:induction false} NoTopHole(t: CType, d: Declarator)
    requires !TopHole(d) && d != HOLE && d != DName(None)
    ensures !TopHole(ToDecl(t, d).d) && TopName(ToDecl(t, d).d) == TopName(d)
    decreases t
  {
    match t
    case Named(_, _) =>
    case Ptr(c, p) => NoTopHole(p, DPtr(c, d));
    case Fn(r, ps, v) => NoTopHole(r, DFn(d, ToDecls(ps), v));
  }

  lemma {:induction false} FillWellFormed(d: Declarator, name: string)
    requires WellFormedD(d) && FillD(d, name).Some?
    ensures WellFormedD(FillD(d, name).value)
    decreases d
  {
    match d
    case DName(_) =>
    case DPtr(_, i) => FillWellFormed(i, name);
    case DFn(i, ps, _) =>
      FillKeepsShape(i, name);
      if FillD(i, name).Some? { FillWellFormed(i, name); }
      else if FillParams(ps, name).Some? { FillParamsWellFormed(ps, name); }
  }

  lemma {:induction false} FillInWellFormed(decl: Decl, name: string)
    requires WellFormedDecl(decl) && FillIn(decl, name).Some?
    ensures WellFormedD(FillIn(decl, name).value)
    decreases decl
  {
    FillWellFormed(decl.d, name);
  }

  lemma {:induction false} FillParamsWellFormed(ps: seq<Decl>, name: string)
    requires forall k | 0 <= k < |ps| :: WellFormedDecl(ps[k])
    requires FillParams(ps, name).Some?
    ensures var qs := FillParams(ps, name).value; forall k | 0 <= k < |qs| :: WellFormedDecl(qs[k])
    decreases ps
  {
    if FillIn(ps[0], name).Some? {
      FillInWellFormed(ps[0], name);
    } else {
      FillParamsWellFormed(ps[1..], name);
    }
  }

  lemma {:induction false} ClosedToDecl(t: CType, d: Declarator)
    requires !PointerChain(t) || Closed(d)
    ensures Closed(ToDecl(t, d).d)
    decreases t
  {
    match t
    case Named(_, _) =>
    case Ptr(c, p) => ClosedToDecl(p, DPtr(c, d));
    case Fn(r, ps, v) => ClosedToDecl(r, DFn(d, ToDecls(ps), v));
  }

  lemma {:induction false} ChainHasNoHole(t: CType, d: Declarator, name: string)
    requires PointerChain(t) && FillD(d, name) == None
    ensures FillD(ToDecl(t, d).d, name) == None
    decreases t
  {
    if t.Ptr? { ChainHasNoHole(t.pointee, DPtr(t.isConst, d), name); }
  }

  lemma {:induction false} ChainAppend(t: CType, d: Declarator, d': Declarator, name: string)
    requires PointerChain(t) && DToks(d', []) == DToks(d, []) + [TIdent(name)]
    ensures DeclTokens(ToDecl(t, d'), []) == DeclTokens(ToDecl(t, d), []) + [TIdent(name)]
    decreases t
  {
    match t
    case Named(_, _) =>
    case Ptr(c, p) =>
      assert DToks(DPtr(c, d'), []) == DToks(DPtr(c, d), []) + [TIdent(name)];
      ChainAppend(p, DPtr(c, d), DPtr(c, d'), name);
  }

  // ----- the theorem -----

  lemma StripAppended(t: CType, name: string)
    ensures Strip(Signature(t) + [TSpace, TIdent(name)]) == DeclTokens(ToDecl(t, DName(None)), []) + [TIdent(name)]
  {
    StripConcat(Signature(t), [TSpace, TIdent(name)]);
    StripDeclTokens(ToDecl(t, DName(None)));
    assert [TSpace, TIdent(name)][1..] == [TIdent(name)];
    assert Strip([TIdent(name)]) == [TIdent(name)];
  }

  lemma AppendedOnChain(t: CType, name: string)
    requires WellFormed(t) && PointerChain(t)
    ensures ParseDeclaration(Signature(t) + [TSpace, TIdent(name)]) == Some(Meaning(Some(name), t))
  {
    var d := DName(Some(name));
    StripAppended(t, name);
    ChainAppend(t, DName(None), d, name);
    ToDeclWellFormed(t, d);
    DeclBack(ToDecl(t, d), []);
    assert DeclTokens(ToDecl(t, d), []) + [] == DeclTokens(ToDecl(t, d), []);
    DeclaredToDecl(t, d);
  }

  lemma AppendedElsewhere(t: CType, name: string)
    requires WellFormed(t) && !PointerChain(t)
    ensures ParseDeclaration(Signature(t) + [TSpace, TIdent(name)]) == None
  {
    StripAppended(t, name);
    ToDeclWellFormed(t, DName(None));
    ClosedToDecl(t, DName(None));
    DeclBack(ToDecl(t, DName(None)), [TIdent(name)]);
  }

  /** Inserting into the printed type is filling its declaration, and the result parses. */
  lemma InsertedParses(t: CType, name: string)
    requires WellFormed(t)
    ensures InsertName(Signature(t), name).Some? == FillD(ToDecl(t, DName(None)).d, name).Some?
    ensures InsertName(Signature(t), name).Some? ==>
              var decl := ToDecl(t, DName(None));
              ParseDeclaration(InsertName(Signature(t), name).value)
              == Some(Declared(decl.(d := FillD(decl.d, name).value)))
  {
    var decl := ToDecl(t, DName(None));
    InsertIntoDecl(decl, [], name);
    assert DeclTokens(decl, SP) + [] == DeclTokens(decl, SP);
    if FillD(decl.d, name).Some? {
      var filled := decl.(d := FillD(decl.d, name).value);
      assert DeclTokens(filled, SP) + [] == DeclTokens(filled, SP);
      ToDeclWellFormed(t, DName(None));
      FillWellFormed(decl.d, name);
      StripDeclTokens(filled);
      DeclBack(filled, []);
      assert DeclTokens(filled, []) + [] == DeclTokens(filled, []);
    }
  }

  lemma PointerToFunction(c: bool, f: CType)
    ensures IsFunctionPointer(Ptr(c, f)) <==> Canonical(f).Fn?
    ensures f.Fn? ==> Canonical(f).Fn?
    ensures f.Ptr? ==> Canonical(f).Ptr?
  {
    var t := Ptr(c, f);
    assert Canonical(t) == Ptr(c, Canonical(f));
  }

  lemma FunctionPointerSpelling(t: CType)
    requires IsFunctionPointer(t) && !PointerChain(t)
    ensures t.Ptr? && t.pointee.Fn?
  {
  }

  /** The text is no declaration, or the declaration of an unnamed entity. */
  predicate DeclaresNothing(ts: seq<Token>) {
    match ParseDeclaration(ts)
    case None => true
    case Some(m) => m.name == None
  }

  lemma {:induction false} FormatConstFunctionPointer(f: CType, name: string)
    requires f.Fn? && WellFormed(f)
    ensures DeclaresNothing(FormatDecl(Ptr(true, f), name))
  {
    var t := Ptr(true, f);
    var top := DPtr(true, DName(None));
    var d := DFn(top, ToDecls(f.params), f.variadic);
    var decl := ToDecl(t, DName(None));
    assert decl == ToDecl(f, top) == ToDecl(f.ret, d);
    assert !TopHole(top) && TopName(top) == None;
    NoTopHole(f.ret, d);
    InsertedParses(t, name);
    PointerToFunction(true, f);
    match FillD(decl.d, name)
    case None => AppendedElsewhere(t, name);
    case Some(d') =>
      FillElsewhere(decl.d, name);
      BuildName(Named(decl.isConst, decl.spec), d');
      assert Declared(decl.(d := d')).name == None;
  }

  lemma {:induction false} FormatFunctionPointer(f: CType, name: string)
    requires f.Fn? && WellFormed(f)
    ensures ParseDeclaration(FormatDecl(Ptr(false, f), name)) == Some(Meaning(Some(name), Ptr(false, f)))
  {
    var t := Ptr(false, f);
    var ps := ToDecls(f.params);
    var d := DFn(HOLE, ps, f.variadic);
    var named := DPtr(false, DName(Some(name)));
    var d' := DFn(named, ps, f.variadic);
    assert ToDecl(t, DName(None)) == ToDecl(f, HOLE) == ToDecl(f.ret, d);
    InsertedParses(t, name);
    PointerToFunction(false, f);
    FillThrough(f.ret, d, d', name);
    DeclaredToDecl(f.ret, d');
    ParamTypesToDecls(f.params);
    assert Build(f.ret, d') == Build(f, named) == Build(t, DName(Some(name)));
  }

  /** `format_decl` declares `name` with type `t` if and only if `t` is declarable. */
  lemma FormatDeclCorrect(t: CType, name: string)
    requires WellFormed(t)
    ensures ParseDeclaration(FormatDecl(t, name)) == Some(Meaning(Some(name), t)) <==> Declarable(t)
    ensures !Declarable(t) ==> DeclaresNothing(FormatDecl(t, name))
  {
    if PointerChain(t) {
      InsertedParses(t, name);
      ChainHasNoHole(t, DName(None), name);
      AppendedOnChain(t, name);
    } else if IsFunctionPointer(t) {
      FunctionPointerSpelling(t);
      if t.isConst { FormatConstFunctionPointer(t.pointee, name); } else { FormatFunctionPointer(t.pointee, name); }
    } else {
      AppendedElsewhere(t, name);
    }
  }

  // ----- where a name is not needed -----

  /** `(*)` occurs in the printed type. */
  predicate HasHole(t: CType) {
    InsertName(Signature(t), "").Some?
  }

  lemma {:induction false} HoleForAnyName(ts: seq<Token>, m: string, n: string)
    ensures InsertName(ts, m).Some? == InsertName(ts, n).Some?
  {
    if |ts| >= 3 && !(ts[0] == TLParen && ts[1] == TStar && ts[2] == TRParen) { HoleForAnyName(ts[1..], m, n); }
  }

  /** The types whose printed declaration is one, perhaps of an unnamed parameter. */
  predicate PrintsAsParameter(t: CType) {
    Declarable(t) || (t.Ptr? && t.pointee.Fn? && HasHole(t))
  }

  lemma FormatDeclParses(t: CType, name: string)
    requires WellFormed(t)
    ensures ParseDeclaration(FormatDecl(t, name)).Some? <==> PrintsAsParameter(t)
  {
    if Declarable(t) {
      FormatDeclCorrect(t, name);
    } else {
      InsertedParses(t, name);
      HoleForAnyName(Signature(t), "", name);
      AppendedElsewhere(t, name);
      if IsFunctionPointer(t) {
        FunctionPointerSpelling(t);
      } else if t.Ptr? {
        PointerToFunction(t.isConst, t.pointee);
      }
    }
  }

  /** The failing family is not empty: a constant function pointer, and a pointer to a function pointer. */
  lemma FormatDeclFailures(name: string)
    ensures var f := Fn(VOID, [SIZE_T], false);
            && DeclaresNothing(FormatDecl(Ptr(true, f), name))
            && ParseDeclaration(FormatDecl(Ptr(false, Ptr(false, f)), name)) == None
  {
    var f := Fn(VOID, [SIZE_T], false);
    assert WellFormed(VOID) && WellFormed(SIZE_T);
    FormatConstFunctionPointer(f, name);
    var p := Ptr(false, f);
    PointerToFunction(false, p);
    assert !PointerChain(p) && WellFormed(p);
    AppendedElsewhere(Ptr(false, p), name);
  }
}
