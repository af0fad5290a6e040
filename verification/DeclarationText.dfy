/** The character-level `format_decl`: a text search and a text insertion, refined to the token level. */
module DeclarationText {
  import opened Options
  import opened CTypes
  import opened Declarators
  import opened DeclarationPrinting

  predicate IsHole(s: string, j: nat) {
    j + 3 <= |s| && s[j] == '(' && s[j + 1] == '*' && s[j + 2] == ')'
  }

  /** `std::search` for `(*)`: the first position that matches, or the length of the text. */
  function SearchHole(s: string): (k: nat)
    ensures k <= |s|
    ensures k < |s| ==> IsHole(s, k)
    ensures forall j: nat | j < k :: !IsHole(s, j)
  {
    if s == "" then 0
    else if IsHole(s, 0) then 0
    else
      var k := SearchHole(s[1..]);
      assert forall j: nat | 0 < j <= k :: IsHole(s, j) == IsHole(s[1..], j - 1);
      k + 1
  }

  /** `format_decl` on the printed type. */
  function FormatText(signature: string, isFunctionPointer: bool, name: string): string {
    var k := SearchHole(signature);
    if isFunctionPointer && k < |signature| then signature[..k + 2] + name + signature[k + 2..]
    else signature + " " + name
  }

  predicate CleanText(s: string) {
    s != "" && '(' !in s && '*' !in s && ')' !in s
  }

  predicate Clean(ts: seq<Token>) {
    forall t | t in ts :: (t.TSpec? ==> CleanText(t.spec.name)) && (t.TIdent? ==> CleanText(t.name))
  }

  lemma TextConcat(a: seq<Token>, b: seq<Token>)
    ensures Text(a + b) == Text(a) + Text(b)
  {
    if a == [] {
      assert a + b == b;
    } else {
      assert (a + b)[1..] == a[1..] + b;
      TextConcat(a[1..], b);
    }
  }

  lemma {:induction false} TextHead(ts: seq<Token>)
    requires Clean(ts) && Text(ts) != ""
    ensures Text(ts)[0] == '*' ==> ts[0] == TStar && Text(ts) == "*" + Text(ts[1..])
    ensures Text(ts)[0] == ')' ==> ts[0] == TRParen
  {
    assert ts[0] in ts;
    assert TokenText(ts[0]) != "";
    assert Text(ts)[0] == TokenText(ts[0])[0];
    if ts[0].TSpec? { assert TokenText(ts[0])[0] in ts[0].spec.name; }
    if ts[0].TIdent? { assert TokenText(ts[0])[0] in ts[0].name; }
  }

  /** A match in the text starts at a `(` token that is followed by `*` and `)` tokens. */
  lemma {:induction false} HoleIsTokens(ts: seq<Token>, j: nat)
    requires ts != [] && Clean(ts) && j < |TokenText(ts[0])| && IsHole(Text(ts), j)
    ensures |ts| >= 3 && ts[0] == TLParen && ts[1] == TStar && ts[2] == TRParen
  {
    assert ts[0] in ts;
    var t, rest := ts[0], ts[1..];
    assert TokenText(t)[j] == '(' by { assert Text(ts)[j] == TokenText(t)[j]; }
    assert '(' in TokenText(t);
    assert t == TLParen;
    assert Text(ts) == "(" + Text(rest);
    assert Text(rest)[0] == '*' && Text(rest)[1] == ')';
    TextHead(rest);
    assert Text(rest[1..])[0] == ')';
    TextHead(rest[1..]);
  }

  lemma SearchUnique(s: string, k: nat)
    requires k <= |s| && (k < |s| ==> IsHole(s, k)) && forall j: nat | j < k :: !IsHole(s, j)
    ensures SearchHole(s) == k
  {
  }

  lemma HoleShift(a: string, b: string, j: nat)
    ensures IsHole(a + b, |a| + j) == IsHole(b, j)
  {
  }

  lemma SearchBehind(a: string, b: string)
    requires forall j: nat | j < |a| :: !IsHole(a + b, j)
    ensures SearchHole(a + b) == |a| + SearchHole(b)
  {
    var k := SearchHole(b);
    forall j: nat | |a| <= j < |a| + k
      ensures !IsHole(a + b, j)
    {
      HoleShift(a, b, j - |a|);
    }
    HoleShift(a, b, k);
    SearchUnique(a + b, |a| + k);
  }

  lemma {:induction false} SearchSkips(ts: seq<Token>)
    requires ts != [] && Clean(ts)
    requires !(|ts| >= 3 && ts[0] == TLParen && ts[1] == TStar && ts[2] == TRParen)
    ensures SearchHole(Text(ts)) == |TokenText(ts[0])| + SearchHole(Text(ts[1..]))
  {
    var a, b := TokenText(ts[0]), Text(ts[1..]);
    assert Text(ts) == a + b;
    forall j: nat | j < |a|
      ensures !IsHole(a + b, j)
    {
      if IsHole(a + b, j) { HoleIsTokens(ts, j); }
    }
    SearchBehind(a, b);
  }

  lemma InsertBehind(a: string, b: string, k: nat, name: string)
    requires k + 2 <= |b|
    ensures (a + b)[..|a| + k + 2] + name + (a + b)[|a| + k + 2..] == a + (b[..k + 2] + name + b[k + 2..])
  {
    assert (a + b)[..|a| + k + 2] == a + b[..k + 2];
    assert (a + b)[|a| + k + 2..] == b[k + 2..];
  }

  /** The text search of `s` and its insertion agree with token-level result `r`. */
  predicate FoundIn(s: string, r: Option<seq<Token>>, name: string) {
    var k := SearchHole(s);
    match r
    case None => k == |s|
    case Some(us) => k < |s| && Text(us) == s[..k + 2] + name + s[k + 2..]
  }

  /** The text search finds exactly what the token search finds. */
  lemma {:induction false} SearchRefines(ts: seq<Token>, name: string)
    requires Clean(ts)
    ensures FoundIn(Text(ts), InsertName(ts, name), name)
  {
    if |ts| >= 3 && ts[0] == TLParen && ts[1] == TStar && ts[2] == TRParen {
      HoleAtHead(ts, name);
    } else if ts != [] {
      assert Clean(ts[1..]) by { assert forall u | u in ts[1..] :: u in ts; }
      SearchRefines(ts[1..], name);
      SearchRefinesStep(ts, name);
    }
  }

  lemma {:induction false} SearchRefinesStep(ts: seq<Token>, name: string)
    requires Clean(ts)
    requires ts != [] && !(|ts| >= 3 && ts[0] == TLParen && ts[1] == TStar && ts[2] == TRParen)
    requires FoundIn(Text(ts[1..]), InsertName(ts[1..], name), name)
    ensures FoundIn(Text(ts), InsertName(ts, name), name)
  {
    hide SearchHole, InsertName, Clean, TokenText;
    SearchSkips(ts);
    ShortHasNoHole(ts, name);
    assert Text(ts) == TokenText(ts[0]) + Text(ts[1..]);
    if InsertName(ts[1..], name).Some? {
      var us := InsertName(ts[1..], name).value;
      assert ([ts[0]] + us)[1..] == us;
      assert Text([ts[0]] + us) == TokenText(ts[0]) + Text(us);
      hide Text;
      InsertBehind(TokenText(ts[0]), Text(ts[1..]), SearchHole(Text(ts[1..])), name);
    }
  }

  lemma {:induction false} ShortHasNoHole(ts: seq<Token>, name: string)
    requires ts != [] && !(|ts| >= 3 && ts[0] == TLParen && ts[1] == TStar && ts[2] == TRParen)
    ensures InsertName(ts, name) == Prefixed([ts[0]], InsertName(ts[1..], name))
  {
  }

  lemma {:induction false} HoleAtHead(ts: seq<Token>, name: string)
    requires |ts| >= 3 && ts[0] == TLParen && ts[1] == TStar && ts[2] == TRParen
    ensures SearchHole(Text(ts)) == 0 && |Text(ts)| > 2
    ensures InsertName(ts, name).Some?
    ensures Text(InsertName(ts, name).value) == Text(ts)[..2] + name + Text(ts)[2..]
  {
    var a, b := [TLParen, TStar], ts[2..];
    assert ts == a + b;
    TextConcat(a, b);
    assert a[1..] == [TStar];
    assert Text(a) == "(*";
    assert Text(b)[0] == ')';
    assert IsHole(Text(ts), 0);
    SearchUnique(Text(ts), 0);
    var c: seq<Token> := a + [TIdent(name)];
    TextConcat(c, b);
    TextConcat(a, [TIdent(name)]);
    assert Text([TIdent(name)]) == name;
    assert c == [TLParen, TStar, TIdent(name)];
  }

  // ----- the specifiers that occur in a type are those of its tokens -----

  predicate EverySpec(t: CType, ok: Spec -> bool)
    decreases t
  {
    match t
    case Named(_, s) => ok(s)
    case Ptr(_, p) => EverySpec(p, ok)
    case Fn(r, ps, _) => EverySpec(r, ok) && forall i | 0 <= i < |ps| :: EverySpec(ps[i], ok)
  }

  predicate EverySpecD(d: Declarator, ok: Spec -> bool)
    decreases d
  {
    match d
    case DName(n) => n == None
    case DPtr(_, i) => EverySpecD(i, ok)
    case DFn(i, ps, _) => EverySpecD(i, ok) && forall k | 0 <= k < |ps| :: EverySpecDecl(ps[k], ok)
  }

  predicate EverySpecDecl(decl: Decl, ok: Spec -> bool)
    decreases decl
  {
    ok(decl.spec) && EverySpecD(decl.d, ok)
  }

  /** Tokens without a declared name. */
  predicate Unnamed(ts: seq<Token>, ok: Spec -> bool) {
    forall t | t in ts :: (t.TSpec? ==> ok(t.spec)) && !t.TIdent?
  }

  lemma {:induction false} SpecsToDecl(t: CType, d: Declarator, ok: Spec -> bool)
    requires EverySpec(t, ok) && EverySpecD(d, ok)
    ensures EverySpecDecl(ToDecl(t, d), ok)
    decreases t
  {
    match t
    case Named(_, _) =>
    case Ptr(c, p) => SpecsToDecl(p, DPtr(c, d), ok);
    case Fn(r, ps, v) =>
      SpecsToDecls(ps, ok);
      SpecsToDecl(r, DFn(d, ToDecls(ps), v), ok);
  }

  lemma {:induction false} SpecsToDecls(ps: seq<CType>, ok: Spec -> bool)
    requires forall i | 0 <= i < |ps| :: EverySpec(ps[i], ok)
    ensures forall k | 0 <= k < |ToDecls(ps)| :: EverySpecDecl(ToDecls(ps)[k], ok)
    decreases ps
  {
    if ps != [] {
      SpecsToDecl(ps[0], DName(None), ok);
      SpecsToDecls(ps[1..], ok);
    }
  }

  lemma {:induction false} SpecsOfDToks(d: Declarator, ok: Spec -> bool)
    requires EverySpecD(d, ok)
    ensures Unnamed(DToks(d, SP), ok)
    decreases d, 0
  {
    match d
    case DName(_) =>
    case DPtr(_, i) => SpecsOfDToks(i, ok);
    case DFn(i, ps, v) =>
      SpecsOfDToks(i, ok);
      SpecsOfParamToks(ps, v, ok);
  }

  lemma {:induction false} SpecsOfDeclTokens(decl: Decl, ok: Spec -> bool)
    requires EverySpecDecl(decl, ok)
    ensures Unnamed(DeclTokens(decl, SP), ok)
    decreases decl
  {
    SpecsOfDToks(decl.d, ok);
  }

  lemma {:induction false} SpecsOfParamToks(ps: seq<Decl>, v: bool, ok: Spec -> bool)
    requires forall k | 0 <= k < |ps| :: EverySpecDecl(ps[k], ok)
    ensures Unnamed(ParamToks(ps, v, SP), ok) && Unnamed(MoreParamToks(ps, v, SP), ok)
    decreases ps
  {
    if ps != [] {
      SpecsOfDeclTokens(ps[0], ok);
      SpecsOfParamToks(ps[1..], v, ok);
    }
  }

  lemma SpecsOfSignature(t: CType, ok: Spec -> bool)
    requires EverySpec(t, ok)
    ensures Unnamed(Signature(t), ok)
  {
    SpecsToDecl(t, DName(None), ok);
    SpecsOfDeclTokens(ToDecl(t, DName(None)), ok);
  }

  function CleanSpec(): Spec -> bool { (s: Spec) => CleanText(s.name) }

  /** No name in the type contains a parenthesis or a star. */
  predicate CleanType(t: CType) {
    EverySpec(t, CleanSpec())
  }

  /** On types without parentheses or stars in their names the text-level printer prints the tokens of `FormatDecl`. */
  lemma FormatTextRefines(t: CType, name: string)
    requires CleanType(t)
    ensures FormatText(Text(Signature(t)), IsFunctionPointer(t), name) == Text(FormatDecl(t, name))
  {
    hide SearchHole, InsertName, Text, Signature, IsHole, EverySpec, CleanText;
    SpecsOfSignature(t, CleanSpec());
    SearchRefines(Signature(t), name);
    AppendedText(Signature(t), name);
  }

  lemma AppendedText(ts: seq<Token>, name: string)
    ensures Text(ts + [TSpace, TIdent(name)]) == Text(ts) + " " + name
  {
    TextConcat(ts, [TSpace, TIdent(name)]);
    assert [TSpace, TIdent(name)][1..] == [TIdent(name)];
    assert Text([TIdent(name)]) == name;
    assert Text(ts) + (" " + name) == Text(ts) + " " + name;
  }
}
