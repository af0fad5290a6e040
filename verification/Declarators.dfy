/**
 The declaration printer of the thunk generator against a parser for C declarations.

 A declaration is a specifier and a declarator. `DeclTokens` prints it, `ParseDecl` reads it by the
 grammar of section 6.7.6 of ISO C11 (declarators) and 6.7.7 (type names), and `Declared` gives it its
 meaning: the declared name and its type, built from the inside out.
 */
module Declarators {
  import opened Options
  import opened CTypes

  datatype Declarator =
    | DName(name: Option<string>)
    | DPtr(isConst: bool, inner: Declarator)
    | DFn(inner: Declarator, params: seq<Decl>, variadic: bool)

  datatype Decl = Decl(isConst: bool, spec: Spec, d: Declarator)

  const HOLE := DPtr(false, DName(None))

  // ----- printing; `sp` is the white space to use, [TSpace] for text and [] for bare tokens -----

  function DToks(d: Declarator, sp: seq<Token>): seq<Token>
    decreases d, 0
  {
    match d
    case DName(None) => []
    case DName(Some(n)) => [TIdent(n)]
    case DPtr(c, i) =>
      [TStar] + (if c then [TConst] + (if i == DName(None) then [] else sp) else []) + DToks(i, sp)
    case DFn(i, ps, v) => Group(i, sp) + ([TLParen] + ParamToks(ps, v, sp) + [TRParen])
  }

  function Group(i: Declarator, sp: seq<Token>): seq<Token>
    decreases i, 1
  {
    if i.DPtr? then [TLParen] + DToks(i, sp) + [TRParen] else DToks(i, sp)
  }

  function DeclTokens(decl: Decl, sp: seq<Token>): seq<Token>
    decreases decl
  {
    (if decl.isConst then [TConst] + sp else []) + [TSpec(decl.spec)]
    + (if decl.d == DName(None) then [] else sp) + DToks(decl.d, sp)
  }

  function ParamToks(ps: seq<Decl>, v: bool, sp: seq<Token>): seq<Token>
    decreases ps
  {
    if ps == [] then (if v then [TDots] else [])
    else DeclTokens(ps[0], sp) + MoreParamToks(ps[1..], v, sp)
  }

  function MoreParamToks(ps: seq<Decl>, v: bool, sp: seq<Token>): seq<Token>
    decreases ps
  {
    if ps == [] then (if v then [TComma, TDots] else [])
    else [TComma] + DeclTokens(ps[0], sp) + MoreParamToks(ps[1..], v, sp)
  }

  // ----- parsing -----

  datatype Parsed<+T> = Fail | Parsed(value: T, rest: seq<Token>)

  predicate StartsDeclarator(t: Token) {
    t.TStar? || t.TLParen? || t.TIdent?
  }

  function ParseDeclarator(ts: seq<Token>): (r: Parsed<Declarator>)
    ensures r.Parsed? ==> |r.rest| <= |ts|
    decreases |ts|, 2
  {
    if |ts| > 0 && ts[0] == TStar then
      var c := |ts| > 1 && ts[1] == TConst;
      match ParseDeclarator(if c then ts[2..] else ts[1..])
      case Fail => Fail
      case Parsed(d, rest) => Parsed(DPtr(c, d), rest)
    else
      ParseDirect(ts)
  }

  function ParsePrimary(ts: seq<Token>): (r: Parsed<Declarator>)
    ensures r.Parsed? ==> |r.rest| <= |ts|
    decreases |ts|, 0
  {
    if |ts| > 0 && ts[0].TIdent? then
      Parsed(DName(Some(ts[0].name)), ts[1..])
    else if |ts| > 1 && ts[0] == TLParen && StartsDeclarator(ts[1]) then
      match ParseDeclarator(ts[1..])
      case Fail => Fail
      case Parsed(d, rest) => if |rest| > 0 && rest[0] == TRParen then Parsed(d, rest[1..]) else Fail
    else
      Parsed(DName(None), ts)
  }

  function ParseDirect(ts: seq<Token>): (r: Parsed<Declarator>)
    ensures r.Parsed? ==> |r.rest| <= |ts|
    decreases |ts|, 1
  {
    match ParsePrimary(ts)
    case Fail => Fail
    case Parsed(d, rest) =>
      if |rest| > 0 && rest[0] == TLParen then
        match ParseParams(rest[1..])
        case Fail => Fail
        case Parsed((ps, v), rest') =>
          if |rest'| > 0 && rest'[0] == TRParen then Parsed(DFn(d, ps, v), rest'[1..]) else Fail
      else
        Parsed(d, rest)
  }

  function ParseParams(ts: seq<Token>): (r: Parsed<(seq<Decl>, bool)>)
    ensures r.Parsed? ==> |r.rest| <= |ts|
    decreases |ts|, 4
  {
    if |ts| > 0 && ts[0] == TRParen then Parsed(([], false), ts)
    else ParseParamList(ts)
  }

  function ParseParamList(ts: seq<Token>): (r: Parsed<(seq<Decl>, bool)>)
    ensures r.Parsed? ==> |r.rest| <= |ts|
    decreases |ts|, 3
  {
    if |ts| > 0 && ts[0] == TDots then Parsed(([], true), ts[1..])
    else
      match ParseDecl(ts)
      case Fail => Fail
      case Parsed(p, rest) =>
        if |rest| > 0 && rest[0] == TComma then
          match ParseParamList(rest[1..])
          case Fail => Fail
          case Parsed((ps, v), rest') => Parsed(([p] + ps, v), rest')
        else
          Parsed(([p], false), rest)
  }

  function ParseDecl(ts: seq<Token>): (r: Parsed<Decl>)
    ensures r.Parsed? ==> |r.rest| < |ts|
    decreases |ts|, 2
  {
    var c := |ts| > 0 && ts[0] == TConst;
    var us := if c then ts[1..] else ts;
    if |us| > 0 && us[0].TSpec? then
      match ParseDeclarator(us[1..])
      case Fail => Fail
      case Parsed(d, rest) => Parsed(Decl(c, us[0].spec, d), rest)
    else
      Fail
  }

  // ----- meaning -----

  datatype Meaning = Meaning(name: Option<string>, ctype: CType)

  /** Section 6.7.6: what declarator `d` makes of a specifier that stands for `t`. */
  function Build(t: CType, d: Declarator): Meaning
    decreases d
  {
    match d
    case DName(n) => Meaning(n, t)
    case DPtr(c, i) => Build(Ptr(c, t), i)
    case DFn(i, ps, v) => Build(Fn(t, ParamTypes(ps), v), i)
  }

  function ParamTypes(ps: seq<Decl>): seq<CType>
    decreases ps
  {
    if ps == [] then [] else [Declared(ps[0]).ctype] + ParamTypes(ps[1..])
  }

  function Declared(decl: Decl): Meaning
    decreases decl
  {
    Build(Named(decl.isConst, decl.spec), decl.d)
  }

  /** The one declaration a whole token sequence spells, white space ignored. */
  function ParseDeclaration(ts: seq<Token>): Option<Meaning> {
    match ParseDecl(Strip(ts))
    case Fail => None
    case Parsed(decl, rest) => if rest == [] then Some(Declared(decl)) else None
  }

  function Strip(ts: seq<Token>): seq<Token> {
    if ts == [] then []
    else if ts[0] == TSpace then Strip(ts[1..])
    else [ts[0]] + Strip(ts[1..])
  }

  // ----- the declaration of a type -----

  function ToDecl(t: CType, d: Declarator): Decl
    decreases t
  {
    match t
    case Named(c, s) => Decl(c, s, d)
    case Ptr(c, p) => ToDecl(p, DPtr(c, d))
    case Fn(r, ps, v) => ToDecl(r, DFn(d, ToDecls(ps), v))
  }

  function ToDecls(ps: seq<CType>): seq<Decl>
    decreases ps
  {
    if ps == [] then [] else [ToDecl(ps[0], DName(None))] + ToDecls(ps[1..])
  }

  /** How the compiler prints a type: its abstract declaration. */
  function Signature(t: CType): seq<Token> {
    DeclTokens(ToDecl(t, DName(None)), [TSpace])
  }

  /** C has no function returning a function. */
  predicate WellFormed(t: CType)
    decreases t
  {
    match t
    case Named(_, Builtin(_)) => true
    case Named(_, Typedef(_, m)) => WellFormed(m)
    case Ptr(_, p) => WellFormed(p)
    case Fn(r, ps, _) => !r.Fn? && WellFormed(r) && forall i | 0 <= i < |ps| :: WellFormed(ps[i])
  }

  /** The text search of the printer: the tokens with `name` put just before the `)` of the first `(*)`. */
  function InsertName(ts: seq<Token>, name: string): Option<seq<Token>> {
    if |ts| < 3 then None
    else if ts[0] == TLParen && ts[1] == TStar && ts[2] == TRParen then
      Some([TLParen, TStar, TIdent(name)] + ts[2..])
    else
      match InsertName(ts[1..], name)
      case None => None
      case Some(us) => Some([ts[0]] + us)
  }

  /** `format_decl`. */
  function FormatDecl(t: CType, name: string): seq<Token> {
    var appended := Signature(t) + [TSpace, TIdent(name)];
    if IsFunctionPointer(t) then
      match InsertName(Signature(t), name)
      case None => appended
      case Some(ts) => ts
    else
      appended
  }

  // ----- white space does not matter -----

  lemma StripConcat(a: seq<Token>, b: seq<Token>)
    ensures Strip(a + b) == Strip(a) + Strip(b)
  {
    if a == [] {
      assert a + b == b;
    } else {
      assert (a + b)[1..] == a[1..] + b;
      StripConcat(a[1..], b);
    }
  }

  const SP: seq<Token> := [TSpace]

  lemma Strip3(a: seq<Token>, b: seq<Token>, c: seq<Token>)
    ensures Strip(a + b + c) == Strip(a) + Strip(b) + Strip(c)
  {
    StripConcat(a + b, c);
    StripConcat(a, b);
  }

  lemma {:induction false} StripDToks(d: Declarator)
    ensures Strip(DToks(d, SP)) == DToks(d, [])
    decreases d, 0
  {
    match d
    case DName(n) =>
    case DPtr(c, i) =>
      StripDToks(i);
      StripPointer(c, i);
    case DFn(i, ps, v) =>
      StripGroup(i);
      StripParamToks(ps, v);
      StripFunction(i, ps, v);
  }

  lemma {:induction false} StripPointer(c: bool, i: Declarator)
    requires Strip(DToks(i, SP)) == DToks(i, [])
    ensures Strip(DToks(DPtr(c, i), SP)) == DToks(DPtr(c, i), [])
  {
    var q := if c then [TConst] + (if i == DName(None) then [] else SP) else [];
    assert DToks(DPtr(c, i), SP) == [TStar] + q + DToks(i, SP);
    assert [TConst] + [] == [TConst];
    assert DToks(DPtr(c, i), []) == [TStar] + (if c then [TConst] else []) + DToks(i, []);
    hide DToks;
    Strip3([TStar], q, DToks(i, SP));
    StripConcat([TConst], SP);
    assert Strip([TStar]) == [TStar] && Strip([TConst]) == [TConst] && Strip(SP) == [];
    assert [TConst] + [] == [TConst];
    assert Strip(q) == if c then [TConst] else [];
  }

  lemma {:induction false} StripFunction(i: Declarator, ps: seq<Decl>, v: bool)
    requires Strip(Group(i, SP)) == Group(i, [])
    requires Strip(ParamToks(ps, v, SP)) == ParamToks(ps, v, [])
    ensures Strip(DToks(DFn(i, ps, v), SP)) == DToks(DFn(i, ps, v), [])
  {
    StripConcat(Group(i, SP), [TLParen] + ParamToks(ps, v, SP) + [TRParen]);
    Strip3([TLParen], ParamToks(ps, v, SP), [TRParen]);
  }

  lemma {:induction false} StripGroup(i: Declarator)
    ensures Strip(Group(i, SP)) == Group(i, [])
    decreases i, 1
  {
    StripDToks(i);
    Strip3([TLParen], DToks(i, SP), [TRParen]);
  }

  lemma {:induction false} StripDeclTokens(decl: Decl)
    ensures Strip(DeclTokens(decl, SP)) == DeclTokens(decl, [])
    decreases decl
  {
    StripDToks(decl.d);
    var a := if decl.isConst then [TConst] + SP else [];
    var b := if decl.d == DName(None) then [] else SP;
    StripConcat(a + [TSpec(decl.spec)] + b, DToks(decl.d, SP));
    StripConcat(a + [TSpec(decl.spec)], b);
    StripConcat(a, [TSpec(decl.spec)]);
  }

  lemma {:induction false} StripParamToks(ps: seq<Decl>, v: bool)
    ensures Strip(ParamToks(ps, v, SP)) == ParamToks(ps, v, [])
    decreases ps
  {
    if ps != [] {
      StripDeclTokens(ps[0]);
      StripMoreParamToks(ps[1..], v);
      StripConcat(DeclTokens(ps[0], SP), MoreParamToks(ps[1..], v, SP));
    }
  }

  lemma {:induction false} StripMoreParamToks(ps: seq<Decl>, v: bool)
    ensures Strip(MoreParamToks(ps, v, SP)) == MoreParamToks(ps, v, [])
    decreases ps
  {
    if ps == [] {
      assert Strip([TComma, TDots]) == [TComma] + Strip([TDots]);
    } else {
      StripDeclTokens(ps[0]);
      StripMoreParamToks(ps[1..], v);
      Strip3([TComma], DeclTokens(ps[0], SP), MoreParamToks(ps[1..], v, SP));
    }
  }

  // ----- parsing what was printed -----

  predicate WellFormedD(d: Declarator)
    decreases d
  {
    match d
    case DName(_) => true
    case DPtr(_, i) => WellFormedD(i)
    case DFn(i, ps, _) => !i.DFn? && WellFormedD(i) && forall k | 0 <= k < |ps| :: WellFormedDecl(ps[k])
  }

  predicate WellFormedDecl(decl: Decl)
    decreases decl
  {
    WellFormedD(decl.d)
  }

  /** Does the printed declarator end with a closing parenthesis? */
  predicate Closed(d: Declarator) {
    match d
    case DName(_) => false
    case DPtr(_, i) => Closed(i)
    case DFn(_, _, _) => true
  }

  /** The tokens that may follow a declarator without becoming part of it. */
  predicate Follows(d: Declarator, rest: seq<Token>) {
    rest == [] || rest[0] == TRParen || rest[0] == TComma || (Closed(d) && rest[0].TIdent?)
  }

  lemma DToksFirst(d: Declarator)
    ensures DToks(d, []) != [] ==> StartsDeclarator(DToks(d, [])[0])
    ensures !d.DPtr? && DToks(d, []) != [] ==> DToks(d, [])[0] != TStar
  {
  }

  lemma ParamToksFirst(ps: seq<Decl>, v: bool)
    ensures var ts := ParamToks(ps, v, []) + [TRParen];
            !StartsDeclarator(ts[0]) && (ps != [] ==> ts[0] != TRParen && ts[0] != TDots)
  {
  }

  // One step of the parser on tokens whose parts it is known to read.

  lemma PointerStep(ts: seq<Token>, us: seq<Token>, c: bool, i: Declarator, rest: seq<Token>)
    requires ts == [TStar] + (if c then [TConst] else []) + us
    requires us == [] || us[0] != TConst
    requires ParseDeclarator(us) == Parsed(i, rest)
    ensures ParseDeclarator(ts) == Parsed(DPtr(c, i), rest)
  {
    assert (if c then ts[2..] else ts[1..]) == us;
  }

  lemma FunctionStep(ts: seq<Token>, i: Declarator, us: seq<Token>, ps: seq<Decl>, v: bool, rest: seq<Token>)
    requires ts != [] && ts[0] != TStar
    requires ParsePrimary(ts) == Parsed(i, [TLParen] + us)
    requires ParseParams(us) == Parsed((ps, v), [TRParen] + rest)
    ensures ParseDeclarator(ts) == Parsed(DFn(i, ps, v), rest)
  {
    assert ([TLParen] + us)[1..] == us;
    assert ([TRParen] + rest)[1..] == rest;
  }

  lemma ListStep(ts: seq<Token>, p: Decl, us: seq<Token>, ps: seq<Decl>, v: bool, rest: seq<Token>)
    requires ts != [] && ts[0] != TDots
    requires ParseDecl(ts) == Parsed(p, [TComma] + us)
    requires ParseParamList(us) == Parsed((ps, v), rest)
    ensures ParseParamList(ts) == Parsed(([p] + ps, v), rest)
  {
    assert ([TComma] + us)[1..] == us;
  }

  lemma DeclStep(ts: seq<Token>, c: bool, s: Spec, us: seq<Token>, d: Declarator, rest: seq<Token>)
    requires ts == (if c then [TConst] else []) + [TSpec(s)] + us
    requires ParseDeclarator(us) == Parsed(d, rest)
    ensures ParseDecl(ts) == Parsed(Decl(c, s, d), rest)
  {
    hide ParseDeclarator;
    var vs := if c then ts[1..] else ts;
    assert vs == [TSpec(s)] + us;
    assert vs[1..] == us;
  }

  lemma GroupStep(us: seq<Token>, d: Declarator, rest: seq<Token>)
    requires us != [] && StartsDeclarator(us[0]) && ParseDeclarator(us) == Parsed(d, [TRParen] + rest)
    ensures ParsePrimary([TLParen] + us) == Parsed(d, rest)
  {
    hide ParseDeclarator;
    assert ([TLParen] + us)[1..] == us;
    assert ([TRParen] + rest)[1..] == rest;
  }

  lemma DotsStep(rest: seq<Token>)
    ensures ParseParamList([TDots] + rest) == Parsed(([], true), rest)
  {
    assert ([TDots] + rest)[1..] == rest;
  }

  lemma LastStep(ts: seq<Token>, p: Decl, rest: seq<Token>)
    requires ts != [] && ts[0] != TDots
    requires ParseDecl(ts) == Parsed(p, rest) && (rest == [] || rest[0] != TComma)
    ensures ParseParamList(ts) == Parsed(([p], false), rest)
  {
  }

  lemma {:induction false} DeclaratorBack(d: Declarator, rest: seq<Token>)
    requires WellFormedD(d) && Follows(d, rest)
    ensures ParseDeclarator(DToks(d, []) + rest) == Parsed(d, rest)
    decreases d, 1
  {
    hide ParseDeclarator, ParsePrimary, ParseDirect, ParseParams, ParamToks, Group, DToks;
    match d
    case DName(n) => NameBack(n, rest);
    case DPtr(c, i) =>
      DeclaratorBack(i, rest);
      PointerTokens(c, i, rest);
      PointerStep(DToks(d, []) + rest, DToks(i, []) + rest, c, i, rest);
    case DFn(i, ps, v) =>
      var us := ParamToks(ps, v, []) + ([TRParen] + rest);
      PrimaryBack(i, ps, v, [TLParen] + us);
      ParamsBack(ps, v, [TRParen] + rest);
      FunctionTokens(i, ps, v, rest, us);
      FunctionStep(DToks(d, []) + rest, i, us, ps, v, rest);
  }

  lemma PointerTokens(c: bool, i: Declarator, rest: seq<Token>)
    requires Follows(i, rest)
    ensures DToks(DPtr(c, i), []) + rest == [TStar] + (if c then [TConst] else []) + (DToks(i, []) + rest)
    ensures var us := DToks(i, []) + rest; us == [] || us[0] != TConst
  {
    DToksFirst(i);
    var x, y, z := [TStar], if c then [TConst] else [], DToks(i, []);
    assert [TConst] + [] == [TConst];
    assert DToks(DPtr(c, i), []) == x + y + z;
    assert x + y + z + rest == x + y + (z + rest);
  }

  lemma NameBack(n: Option<string>, rest: seq<Token>)
    requires Follows(DName(n), rest)
    ensures ParseDeclarator(DToks(DName(n), []) + rest) == Parsed(DName(n), rest)
  {
    hide ParseParams, Group, ParamToks;
    match n
    case None => assert DToks(DName(n), []) + rest == rest;
    case Some(m) =>
      var ts := DToks(DName(n), []) + rest;
      assert ts[0] == TIdent(m) && ts[1..] == rest;
      assert ParsePrimary(ts) == Parsed(DName(n), rest);
  }

  lemma FunctionTokens(i: Declarator, ps: seq<Decl>, v: bool, rest: seq<Token>, us: seq<Token>)
    requires !i.DFn? && us == ParamToks(ps, v, []) + ([TRParen] + rest)
    ensures DToks(DFn(i, ps, v), []) + rest == Group(i, []) + ([TLParen] + us)
    ensures (DToks(DFn(i, ps, v), []) + rest)[0] != TStar
  {
    DToksFirst(i);
    hide ParamToks;
    var x, y, z, w := Group(i, []), [TLParen], ParamToks(ps, v, []), [TRParen];
    assert DToks(DFn(i, ps, v), []) == x + (y + z + w);
    assert x == [] || x[0] != TStar;
    hide DToks, Group;
    assert x + (y + z + w) + rest == x + (y + (z + (w + rest)));
  }

  lemma {:induction false} PrimaryBack(i: Declarator, ps: seq<Decl>, v: bool, tail: seq<Token>)
    requires WellFormedD(i) && !i.DFn?
    requires [TLParen] + (ParamToks(ps, v, []) + [TRParen]) <= tail
    ensures ParsePrimary(Group(i, []) + tail) == Parsed(i, tail)
    decreases i, 2
  {
    var ts := Group(i, []) + tail;
    match i
    case DName(None) =>
      assert ts == tail;
      ParamToksFirst(ps, v);
      assert tail[1] == (ParamToks(ps, v, []) + [TRParen])[0];
    case DName(Some(n)) => assert ts == [TIdent(n)] + tail;
    case DPtr(c, j) =>
      assert DToks(i, [])[0] == TStar;
      DeclaratorBack(i, [TRParen] + tail);
      hide DToks, ParsePrimary;
      var x, y, z := [TLParen], DToks(i, []), [TRParen];
      assert x + y + z + tail == x + (y + (z + tail));
      GroupStep(DToks(i, []) + ([TRParen] + tail), i, tail);
  }

  lemma {:induction false} DeclBack(decl: Decl, rest: seq<Token>)
    requires WellFormedDecl(decl) && Follows(decl.d, rest)
    ensures ParseDecl(DeclTokens(decl, []) + rest) == Parsed(decl, rest)
    decreases decl
  {
    DeclaratorBack(decl.d, rest);
    hide DToks, ParseDeclarator, ParseDecl;
    var x, y, z := if decl.isConst then [TConst] else [], [TSpec(decl.spec)], DToks(decl.d, []);
    assert [TConst] + [] == [TConst];
    assert DeclTokens(decl, []) == x + y + z;
    assert x + y + z + rest == x + y + (z + rest);
    DeclStep(DeclTokens(decl, []) + rest, decl.isConst, decl.spec, DToks(decl.d, []) + rest, decl.d, rest);
  }

  lemma {:induction false} ParamsBack(ps: seq<Decl>, v: bool, rest: seq<Token>)
    requires forall k | 0 <= k < |ps| :: WellFormedDecl(ps[k])
    requires rest != [] && rest[0] == TRParen
    ensures ParseParams(ParamToks(ps, v, []) + rest) == Parsed((ps, v), rest)
    decreases ps, 1
  {
    var ts := ParamToks(ps, v, []) + rest;
    if ps == [] {
      assert ts == (if v then [TDots] + rest else rest);
    } else {
      ParamToksFirst(ps, v);
      ParamListBack(ps, v, rest);
      assert ts[0] == (ParamToks(ps, v, []) + [TRParen])[0];
    }
  }

  lemma {:induction false} ParamListBack(ps: seq<Decl>, v: bool, rest: seq<Token>)
    requires ps != [] && forall k | 0 <= k < |ps| :: WellFormedDecl(ps[k])
    requires rest != [] && rest[0] == TRParen
    ensures ParseParamList(ParamToks(ps, v, []) + rest) == Parsed((ps, v), rest)
    decreases ps, 0
  {
    hide ParseDecl, ParseParamList, ParseDeclarator, DToks, DeclTokens, WellFormedDecl;
    var ts := ParamToks(ps, v, []) + rest;
    var more := MoreParamToks(ps[1..], v, []) + rest;
    assert ts == DeclTokens(ps[0], []) + more;
    assert ts[0] != TDots by { ParamToksFirst(ps, v); assert ts[0] == (ParamToks(ps, v, []) + [TRParen])[0]; }
    DeclBack(ps[0], more);
    if |ps| > 1 {
      var qs := ps[1..];
      ParamListBack(qs, v, rest);
      assert more == [TComma] + (ParamToks(qs, v, []) + rest);
      ListStep(ts, ps[0], ParamToks(qs, v, []) + rest, qs, v, rest);
      assert ps == [ps[0]] + qs;
    } else {
      assert ps == [ps[0]] + [];
      if v {
        assert more == [TComma] + ([TDots] + rest);
        DotsStep(rest);
        ListStep(ts, ps[0], [TDots] + rest, [], true, rest);
      } else {
        assert more == rest;
        LastStep(ts, ps[0], rest);
        assert ps == [ps[0]];
      }
    }
  }
}
