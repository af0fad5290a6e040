/**
 The printed declarations as text: a lexer reads back the tokens, so the printing theorem is about the text
 itself.
 */
module DeclarationLexer {
  import opened Options
  import opened CTypes
  import opened Declarators
  import opened DeclarationPrinting
  import opened DeclarationText
  import opened Sequences

  /** The type names in scope; some consist of several words. */
  type Scope = map<string, Spec>

  predicate IsWordChar(c: char) {
    'a' <= c <= 'z' || 'A' <= c <= 'Z' || '0' <= c <= '9' || c == '_'
  }

  /** The length of the word at the start of `s`. */
  function WordEnd(s: string): (n: nat)
    ensures n <= |s| && (forall i | 0 <= i < n :: IsWordChar(s[i])) && (n < |s| ==> !IsWordChar(s[n]))
  {
    if s == "" || !IsWordChar(s[0]) then 0 else 1 + WordEnd(s[1..])
  }

  predicate EndsAt(s: string, n: nat)
    requires n <= |s|
  {
    n == |s| || !IsWordChar(s[n])
  }

  /** The length of the longest type name at the start of `s`, not longer than `n`; zero if there is none. */
  function LongestName(scope: Scope, s: string, n: nat): (k: nat)
    requires n <= |s|
    ensures k <= n && (k > 0 ==> s[..k] in scope && EndsAt(s, k))
  {
    if n == 0 then 0 else if s[..n] in scope && EndsAt(s, n) then n else LongestName(scope, s, n - 1)
  }

  const CONST_WORD := "const"
  const DOTS := "..."

  function Then(t: Token, r: Option<seq<Token>>): Option<seq<Token>> {
    match r
    case None => None
    case Some(ts) => Some([t] + ts)
  }

  function Lex(scope: Scope, s: string): Option<seq<Token>>
    decreases |s|
  {
    if s == "" then Some([])
    else if s[0] == ' ' then Lex(scope, s[1..])
    else if s[0] == '*' then Then(TStar, Lex(scope, s[1..]))
    else if s[0] == '(' then Then(TLParen, Lex(scope, s[1..]))
    else if s[0] == ')' then Then(TRParen, Lex(scope, s[1..]))
    else if s[0] == ',' then Then(TComma, Lex(scope, s[1..]))
    else if DOTS <= s then Then(TDots, Lex(scope, s[3..]))
    else if !IsWordChar(s[0]) then None
    else LexWord(scope, s, WordEnd(s), LongestName(scope, s, |s|))
  }

  /** A keyword, else the longest type name, else an identifier. */
  function LexWord(scope: Scope, s: string, n: nat, k: nat): Option<seq<Token>>
    requires n <= |s| && k <= |s| && k == LongestName(scope, s, |s|) && n == WordEnd(s) && n > 0
    decreases |s|, 0
  {
    if s[..n] == CONST_WORD then Then(TConst, Lex(scope, s[n..]))
    else if k > 0 then Then(TSpec(scope[s[..k]]), Lex(scope, s[k..]))
    else Then(TIdent(s[..n]), Lex(scope, s[n..]))
  }

  lemma {:induction false} LongestIs(scope: Scope, s: string, n: nat, k: nat)
    requires k <= n <= |s| && (k > 0 ==> s[..k] in scope && EndsAt(s, k))
    requires forall m | k < m <= n :: !(s[..m] in scope && EndsAt(s, m))
    ensures LongestName(scope, s, n) == k
  {
    if k < n { LongestIs(scope, s, n - 1, k); }
  }

  /** The one declaration a text spells. */
  function ParseText(scope: Scope, s: string): Option<Meaning> {
    match Lex(scope, s)
    case None => None
    case Some(ts) => ParseDeclaration(ts)
  }

  // ----- names that can be told apart -----

  /** The text of a type name: words with blanks between them. */
  predicate NameText(k: string) {
    k != "" && IsWordChar(k[0]) && IsWordChar(k[|k| - 1]) && (forall c | c in k :: IsWordChar(c) || c == ' ')
    && k[..WordEnd(k)] != CONST_WORD
  }

  predicate ProperScope(scope: Scope) {
    forall k | k in scope :: NameText(k) && scope[k].name == k
  }

  /** A name to declare: an identifier that is no type name, nor the last word of one. */
  predicate NewName(scope: Scope, name: string) {
    && name != "" && (forall c | c in name :: IsWordChar(c)) && name != CONST_WORD && name !in scope
    && forall k | k in scope :: !LastWordIs(k, name)
  }

  predicate LastWordIs(k: string, name: string) {
    |k| > |name| && k[|k| - |name| - 1..] == " " + name
  }

  predicate InScope(scope: Scope, s: Spec) { s.name in scope && scope[s.name] == s }

  function Specs(scope: Scope): Spec -> bool { (s: Spec) => InScope(scope, s) }

  // ----- tokens that are told apart in the text -----

  predicate IsWordToken(t: Token) { t.TSpec? || t.TConst? || t.TIdent? }

  predicate OkAfter(t: Token, rest: seq<Token>) {
    && (IsWordToken(t) && rest != [] ==> !IsWordToken(rest[0]))
    && (t.TIdent? && rest != [] ==> rest[0] == TRParen)
    && (t.TSpec? && rest != [] && rest[0] == TSpace ==> |rest| > 1 && StartsDeclarator(rest[1]))
    && (t.TSpec? && rest != [] ==> rest[0] == TSpace || rest[0] == TRParen || rest[0] == TComma)
  }

  predicate Spaced(ts: seq<Token>) {
    ts == [] || (OkAfter(ts[0], ts[1..]) && Spaced(ts[1..]))
  }

  predicate KnownToken(scope: Scope, name: string, t: Token) {
    (t.TSpec? ==> InScope(scope, t.spec)) && (t.TIdent? ==> t.name == name)
  }

  predicate KnownTokens(scope: Scope, name: string, ts: seq<Token>) {
    forall i | 0 <= i < |ts| :: KnownToken(scope, name, ts[i])
  }

  // ----- one token -----

  lemma WordEndIs(s: string, n: nat)
    requires n <= |s| && (forall i | 0 <= i < n :: IsWordChar(s[i])) && EndsAt(s, n)
    ensures WordEnd(s) == n
  {
  }

  lemma TokenStart(t: Token, name: string, scope: Scope)
    requires ProperScope(scope) && NewName(scope, name) && KnownToken(scope, name, t)
    ensures TokenText(t) != ""
    ensures IsWordToken(t) <==> IsWordChar(TokenText(t)[0])
  {
    if t.TIdent? { assert name[0] in name; }
    if t.TSpec? { assert NameText(t.spec.name); }
  }

  lemma TextStart(ts: seq<Token>, name: string, scope: Scope)
    requires ProperScope(scope) && NewName(scope, name) && KnownTokens(scope, name, ts) && ts != []
    ensures Text(ts) == TokenText(ts[0]) + Text(ts[1..]) && TokenText(ts[0]) != ""
    ensures IsWordToken(ts[0]) <==> IsWordChar(Text(ts)[0])
  {
    assert KnownToken(scope, name, ts[0]);
    TokenStart(ts[0], name, scope);
    hide TokenText, KnownToken, NewName, ProperScope;
  }

  /** What follows a word token ends it. */
  lemma WordEnds(ts: seq<Token>, name: string, scope: Scope)
    requires ProperScope(scope) && NewName(scope, name) && KnownTokens(scope, name, ts)
    requires ts != [] && OkAfter(ts[0], ts[1..]) && IsWordToken(ts[0])
    ensures Text(ts) == TokenText(ts[0]) + Text(ts[1..]) && EndsAt(Text(ts), |TokenText(ts[0])|)
  {
    TextStart(ts, name, scope);
    if |ts| > 1 {
      assert KnownTokens(scope, name, ts[1..]);
      TextStart(ts[1..], name, scope);
    }
  }

  lemma LexConst(scope: Scope, rest: string)
    requires rest == "" || !IsWordChar(rest[0])
    ensures Lex(scope, CONST_WORD + rest) == Then(TConst, Lex(scope, rest))
  {
    hide LongestName;
    var s := CONST_WORD + rest;
    WordEndIs(s, 5);
    assert s[..5] == CONST_WORD && s[5..] == rest;
    assert !(DOTS <= s) by { assert s[0] == 'c'; }
  }

  /** No name of the scope goes on where an identifier or the end of the declaration follows. */
  lemma NoLongerName(scope: Scope, name: string, k: string, rest: string, n: nat)
    requires ProperScope(scope) && NewName(scope, name) && k in scope && |k| < n <= |k + rest|
    requires rest[0] == ')' || rest[0] == ',' || (rest[0] == ' ' && |rest| > 1 && (rest[1] == '*' || rest[1] == '('))
             || (" " + name <= rest && (|rest| == |name| + 1 || rest[|name| + 1] == ')'))
    ensures !((k + rest)[..n] in scope && EndsAt(k + rest, n))
  {
    var s := k + rest;
    KeyCharacters(scope, s, n);
    assert s[|k|] == rest[0] && (|rest| > 1 ==> s[|k| + 1] == rest[1]);
    if " " + name <= rest && |k| + 1 < n && EndsAt(s, n) && forall i | 0 <= i < n :: IsWordChar(s[i]) || s[i] == ' ' {
      NameEndsKey(name, k, rest, n);
      assert s[..n][|k|..] == " " + name;
      assert LastWordIs(s[..n], name);
    }
  }

  lemma NameEndsKey(name: string, k: string, rest: string, n: nat)
    requires name != "" && (forall c | c in name :: IsWordChar(c)) && |k| + 1 < n <= |k + rest| && EndsAt(k + rest, n)
    requires " " + name <= rest && (|rest| == |name| + 1 || rest[|name| + 1] == ')')
    requires forall i | 0 <= i < n :: IsWordChar((k + rest)[i]) || (k + rest)[i] == ' '
    ensures (k + rest)[..n] == k + " " + name
  {
    var s, m := k + rest, |k| + 1 + |name|;
    assert rest[..|name| + 1] == " " + name;
    forall i | |k| + 1 <= i < m
      ensures IsWordChar(s[i])
    {
      assert s[i] == rest[..|name| + 1][i - |k|] == name[i - |k| - 1];
    }
    assert m < |s| ==> s[m] == rest[|name| + 1] == ')';
    assert n == m;
    assert s[..m] == k + rest[..|name| + 1];
  }

  lemma LexSpec(scope: Scope, name: string, spec: Spec, rest: string)
    requires ProperScope(scope) && NewName(scope, name) && InScope(scope, spec)
    requires rest == "" || rest[0] == ')' || rest[0] == ','
             || (rest[0] == ' ' && |rest| > 1 && (rest[1] == '*' || rest[1] == '('))
             || (" " + name <= rest && (|rest| == |name| + 1 || rest[|name| + 1] == ')'))
    ensures Lex(scope, spec.name + rest) == Then(TSpec(spec), Lex(scope, rest))
  {
    var k := spec.name;
    var s := k + rest;
    assert NameText(k) && s[0] == k[0];
    assert s[..|k|] == k && s[|k|..] == rest && EndsAt(s, |k|);
    forall m | |k| < m <= |s| ensures !(s[..m] in scope && EndsAt(s, m)) { NoLongerName(scope, name, k, rest, m); }
    LongestIs(scope, s, |s|, |k|);
    FirstWord(k, rest);
    hide LongestName, WordEnd, NewName, ProperScope;
    LexIsWord(scope, s);
  }

  lemma LexIsWord(scope: Scope, s: string)
    requires s != "" && IsWordChar(s[0])
    ensures WordEnd(s) > 0 && Lex(scope, s) == LexWord(scope, s, WordEnd(s), LongestName(scope, s, |s|))
  {
    hide LongestName, LexWord;
    assert !(DOTS <= s);
  }

  lemma FirstWord(k: string, rest: string)
    requires NameText(k) && (rest == "" || !IsWordChar(rest[0]))
    ensures WordEnd(k + rest) == WordEnd(k) > 0 && (k + rest)[..WordEnd(k)] == k[..WordEnd(k)]
  {
    var n := WordEnd(k);
    assert forall i | 0 <= i < n :: (k + rest)[i] == k[i];
    WordEndIs(k + rest, n);
  }

  lemma KeyCharacters(scope: Scope, s: string, m: nat)
    requires ProperScope(scope) && 0 < m <= |s|
    ensures s[..m] in scope ==> IsWordChar(s[m - 1]) && forall i | 0 <= i < m :: IsWordChar(s[i]) || s[i] == ' '
  {
    if s[..m] in scope {
      assert NameText(s[..m]);
      forall i | 0 <= i < m ensures IsWordChar(s[i]) || s[i] == ' ' { assert s[..m][i] in s[..m]; }
    }
  }

  lemma LexName(scope: Scope, name: string, rest: string)
    requires ProperScope(scope) && NewName(scope, name) && (rest == "" || rest[0] == ')')
    ensures Lex(scope, name + rest) == Then(TIdent(name), Lex(scope, rest))
  {
    hide NameText;
    var s := name + rest;
    assert name[0] in name && s[0] == name[0];
    assert forall i | 0 <= i < |name| :: name[i] in name && s[i] == name[i];
    WordEndIs(s, |name|);
    assert s[..|name|] == name && s[|name|..] == rest;
    assert |name| < |s| ==> s[|name|] == ')';
    forall m | 0 < m <= |s| ensures !(s[..m] in scope && EndsAt(s, m)) { KeyCharacters(scope, s, m); }
    LongestIs(scope, s, |s|, 0);
    hide LongestName, WordEnd, NewName, ProperScope;
    LexIsWord(scope, s);
  }

  lemma LexPunctuation(scope: Scope, t: Token, rest: string)
    requires t == TStar || t == TLParen || t == TRParen || t == TComma || t == TDots || t == TSpace
    ensures Lex(scope, TokenText(t) + rest) == if t == TSpace then Lex(scope, rest) else Then(t, Lex(scope, rest))
  {
    var s := TokenText(t) + rest;
    if t == TComma {
      assert s[1..] == " " + rest && s[1..][1..] == rest;
      assert Lex(scope, s) == Then(TComma, Lex(scope, s[1..]));
    } else if t == TDots {
      assert s[..3] == DOTS && s[3..] == rest;
    } else {
      assert s[1..] == rest;
    }
  }

  // ----- all tokens -----

  /** What stands behind a specifier in the text. */
  lemma BehindSpec(scope: Scope, name: string, ts: seq<Token>)
    requires ProperScope(scope) && NewName(scope, name) && KnownTokens(scope, name, ts) && Spaced(ts)
    requires ts != [] && ts[0].TSpec?
    ensures var rest := Text(ts[1..]);
            rest == "" || rest[0] == ')' || rest[0] == ','
                || (rest[0] == ' ' && |rest| > 1 && (rest[1] == '*' || rest[1] == '('))
            || (" " + name <= rest && (|rest| == |name| + 1 || rest[|name| + 1] == ')'))
  {
    var us := ts[1..];
    if us != [] && us[0] == TSpace {
      var vs := us[1..];
      assert Text(us) == " " + Text(vs);
      assert vs[0] == us[1] && KnownToken(scope, name, ts[2]);
      assert Text(vs) == TokenText(vs[0]) + Text(vs[1..]);
      if vs[0].TIdent? {
        assert Spaced(us) && Spaced(vs) && OkAfter(vs[0], vs[1..]);
        assert Text(us) == " " + (name + Text(vs[1..]));
        assert " " + name <= Text(us) by { assert Text(us)[..|name| + 1] == " " + name; }
        if |vs| > 1 { assert Text(vs[1..])[0] == ')'; assert Text(us)[|name| + 1] == Text(vs[1..])[0]; }
      }
    }
  }

  lemma {:induction false} LexTokens(scope: Scope, name: string, ts: seq<Token>)
    requires ProperScope(scope) && NewName(scope, name) && KnownTokens(scope, name, ts) && Spaced(ts)
    ensures Lex(scope, Text(ts)) == Some(Strip(ts))
  {
    if ts != [] {
      var t, us := ts[0], ts[1..];
      assert KnownToken(scope, name, t) && KnownTokens(scope, name, us);
      LexTokens(scope, name, us);
      LexHead(scope, name, ts);
    }
  }

  lemma LexHead(scope: Scope, name: string, ts: seq<Token>)
    requires ProperScope(scope) && NewName(scope, name) && KnownTokens(scope, name, ts) && Spaced(ts) && ts != []
    ensures Lex(scope, Text(ts)) == if ts[0] == TSpace then Lex(scope, Text(ts[1..]))
            else Then(ts[0], Lex(scope, Text(ts[1..])))
  {
    hide Lex, NewName, ProperScope, Spaced, InScope;
    var t, rest := ts[0], Text(ts[1..]);
    assert KnownToken(scope, name, t);
    assert OkAfter(t, ts[1..]) by { SpacedHead(ts); }
    match t
    case TSpec(s) =>
      BehindSpec(scope, name, ts);
      LexSpec(scope, name, s, rest);
    case TConst =>
      WordEnds(ts, name, scope);
      LexConst(scope, rest);
    case TIdent(n) =>
      if |ts| > 1 { assert rest[0] == ')'; }
      LexName(scope, name, rest);
    case _ => LexPunctuation(scope, t, rest);
  }

  lemma SpacedHead(ts: seq<Token>)
    requires Spaced(ts) && ts != []
    ensures OkAfter(ts[0], ts[1..]) && Spaced(ts[1..])
  {
  }

  // ----- printed types are spaced -----

  /** What may follow a printed declaration. */
  predicate OkBehind(rest: seq<Token>) {
    && Spaced(rest)
    && (rest == [] || rest[0] == TRParen || rest[0] == TComma || (rest[0] == TSpace && |rest| > 1 && rest[1].TIdent?))
  }

  predicate NoName(d: Declarator)
    decreases d
  {
    match d
    case DName(n) => n == None
    case DPtr(_, i) => NoName(i)
    case DFn(i, ps, _) => NoName(i) && forall k | 0 <= k < |ps| :: NoNameDecl(ps[k])
  }

  predicate NoNameDecl(decl: Decl)
    decreases decl
  {
    NoName(decl.d)
  }

  lemma SpacedCons(t: Token, rest: seq<Token>)
    requires OkAfter(t, rest) && Spaced(rest)
    ensures Spaced([t] + rest)
  {
    assert ([t] + rest)[1..] == rest;
  }

  lemma {:induction false} SpacedDToks(d: Declarator, rest: seq<Token>)
    requires NoName(d) && OkBehind(rest)
    ensures Spaced(DToks(d, SP) + rest)
    decreases d, 1
  {
    match d
    case DName(_) => assert DToks(d, SP) + rest == rest;
    case DPtr(c, i) => SpacedPointer(c, i, rest);
    case DFn(_, _, _) => SpacedFunction(d, rest);
  }

  lemma {:induction false} SpacedFunction(d: Declarator, rest: seq<Token>)
    requires d.DFn? && NoName(d) && Spaced(rest)
    ensures Spaced(DToks(d, SP) + rest)
    decreases d, 0
  {
    var DFn(i, ps, v) := d;
    CallText(i, ps, v, rest);
    hide DToks, Group, ParamToks, Spaced;
    var tail := [TRParen] + rest;
    SpacedCons(TRParen, rest);
    SpacedParams(ps, v, tail);
    var inner := ParamToks(ps, v, SP) + tail;
    SpacedCons(TLParen, inner);
    SpacedGroup(i, [TLParen] + inner);
  }

  lemma CallText(i: Declarator, ps: seq<Decl>, v: bool, rest: seq<Token>)
    ensures DToks(DFn(i, ps, v), SP) + rest == Group(i, SP) + ([TLParen] + (ParamToks(ps, v, SP) + ([TRParen] + rest)))
  {
    var x, y, z, w := Group(i, SP), [TLParen], ParamToks(ps, v, SP), [TRParen];
    assert DToks(DFn(i, ps, v), SP) == x + (y + z + w);
    hide DToks, Group, ParamToks;
    Regroup(x, y + z + w, rest);
    Regroup(y + z, w, rest);
    Regroup(y, z, w + rest);
  }

  lemma {:induction false} SpacedPointer(c: bool, i: Declarator, rest: seq<Token>)
    requires NoName(i) && OkBehind(rest)
    ensures Spaced(DToks(DPtr(c, i), SP) + rest)
    decreases i, 2
  {
    SpacedDToks(i, rest);
    var us := DToks(i, SP) + rest;
    PointerText(c, i, rest);
    assert i == DName(None) ==> us == rest;
    hide DToks, Spaced;
    var vs := if !c then us else if i == DName(None) then [TConst] + us else [TConst] + ([TSpace] + us);
    if c {
      if i == DName(None) {
        SpacedCons(TConst, us);
      } else {
        SpacedCons(TSpace, us);
        SpacedCons(TConst, [TSpace] + us);
      }
    }
    SpacedCons(TStar, vs);
  }

  lemma PointerText(c: bool, i: Declarator, rest: seq<Token>)
    ensures var us := DToks(i, SP) + rest;
            DToks(DPtr(c, i), SP) + rest
            == [TStar] + if !c then us else if i == DName(None) then [TConst] + us else [TConst] + ([TSpace] + us)
  {
    var x, q := DToks(i, SP), if c then [TConst] + (if i == DName(None) then [] else SP) else [];
    assert DToks(DPtr(c, i), SP) == [TStar] + q + x;
    hide DToks;
    Regroup([TStar] + q, x, rest);
    Regroup([TStar], q, x + rest);
    Regroup([TConst], SP, x + rest);
    assert [TConst] + [] == [TConst] && [] + (x + rest) == x + rest;
  }

  lemma {:induction false} SpacedGroup(i: Declarator, rest: seq<Token>)
    requires NoName(i) && Spaced(rest) && rest != [] && rest[0] == TLParen
    ensures Spaced(Group(i, SP) + rest)
    decreases i, 2
  {
    match i
    case DName(_) => assert Group(i, SP) + rest == rest;
    case DPtr(_, _) =>
      var x, y, z := [TLParen], DToks(i, SP), [TRParen];
      assert Group(i, SP) == x + y + z;
      hide DToks, Group;
      var tail := [TRParen] + rest;
      SpacedCons(TRParen, rest);
      hide Spaced;
      SpacedDToks(i, tail);
      SpacedCons(TLParen, DToks(i, SP) + tail);
      Regroup(x + y, z, rest);
      Regroup(x, y, z + rest);
    case DFn(j, ps, v) =>
      assert Group(i, SP) == DToks(i, SP);
      SpacedFunction(i, rest);
  }

  lemma {:induction false} SpacedDecl(decl: Decl, rest: seq<Token>)
    requires NoNameDecl(decl) && OkBehind(rest)
    ensures Spaced(DeclTokens(decl, SP) + rest)
    decreases decl
  {
    SpacedDToks(decl.d, rest);
    DToksSpaced(decl.d);
    DeclText(decl, rest);
    var us := DToks(decl.d, SP) + rest;
    assert decl.d == DName(None) ==> us == rest;
    hide DToks, DeclTokens, Spaced;
    var vs := if decl.d == DName(None) then us else [TSpace] + us;
    if decl.d != DName(None) { SpacedCons(TSpace, us); }
    SpacedCons(TSpec(decl.spec), vs);
    var ws := [TSpec(decl.spec)] + vs;
    if decl.isConst {
      SpacedCons(TSpace, ws);
      SpacedCons(TConst, [TSpace] + ws);
    }
  }

  lemma DeclText(decl: Decl, rest: seq<Token>)
    ensures var us := DToks(decl.d, SP) + rest;
            var ws := [TSpec(decl.spec)] + if decl.d == DName(None) then us else [TSpace] + us;
            DeclTokens(decl, SP) + rest == if decl.isConst then [TConst] + ([TSpace] + ws) else ws
  {
    var q := if decl.isConst then [TConst] + SP else [];
    var y, sp, x := [TSpec(decl.spec)], if decl.d == DName(None) then [] else SP, DToks(decl.d, SP);
    assert DeclTokens(decl, SP) == q + y + sp + x;
    hide DToks, DeclTokens;
    Regroup(q + y + sp, x, rest);
    Regroup(q + y, sp, x + rest);
    Regroup(q, y, sp + (x + rest));
    assert [] + (x + rest) == x + rest;
    Regroup([TConst], SP, y + (sp + (x + rest)));
    assert [] + (y + (sp + (x + rest))) == y + (sp + (x + rest));
  }

  lemma {:induction false} SpacedParams(ps: seq<Decl>, v: bool, rest: seq<Token>)
    requires (forall k | 0 <= k < |ps| :: NoNameDecl(ps[k])) && Spaced(rest) && rest != [] && rest[0] == TRParen
    ensures Spaced(ParamToks(ps, v, SP) + rest) && Spaced(MoreParamToks(ps, v, SP) + rest)
    ensures OkBehind(MoreParamToks(ps, v, SP) + rest)
    decreases ps
  {
    if ps == [] {
      assert [] + rest == rest;
      SpacedCons(TDots, rest);
      SpacedCons(TComma, [TDots] + rest);
      assert [TComma, TDots] + rest == [TComma] + ([TDots] + rest);
      assert [TDots] + rest == if v then ParamToks(ps, v, SP) + rest else [TDots] + rest;
    } else {
      SpacedParams(ps[1..], v, rest);
      var x, y := DeclTokens(ps[0], SP), MoreParamToks(ps[1..], v, SP);
      assert ParamToks(ps, v, SP) == x + y && MoreParamToks(ps, v, SP) == [TComma] + x + y;
      hide ParamToks, MoreParamToks, DeclTokens;
      SpacedDecl(ps[0], y + rest);
      Regroup(x, y, rest);
      Regroup([TComma] + x, y, rest);
      Regroup([TComma], x, y + rest);
      SpacedCons(TComma, x + (y + rest));
    }
  }

  lemma {:induction false} ToDeclNoName(t: CType, d: Declarator)
    requires NoName(d)
    ensures NoNameDecl(ToDecl(t, d))
    decreases t
  {
    match t
    case Named(_, _) =>
    case Ptr(c, p) => ToDeclNoName(p, DPtr(c, d));
    case Fn(r, ps, v) =>
      ToDeclsNoName(ps);
      ToDeclNoName(r, DFn(d, ToDecls(ps), v));
  }

  lemma {:induction false} ToDeclsNoName(ps: seq<CType>)
    ensures forall k | 0 <= k < |ToDecls(ps)| :: NoNameDecl(ToDecls(ps)[k])
    decreases ps
  {
    if ps != [] {
      ToDeclNoName(ps[0], DName(None));
      ToDeclsNoName(ps[1..]);
    }
  }

  lemma {:induction false} InsertedSpaced(ts: seq<Token>, name: string)
    requires Spaced(ts) && InsertName(ts, name).Some?
    ensures var us := InsertName(ts, name).value;
            && Spaced(us) && |us| >= 2 && us[0] == ts[0] && us[1] == ts[1]
            && forall i | 0 <= i < |us| :: us[i] in ts || us[i] == TIdent(name)
  {
    if ts[0] == TLParen && ts[1] == TStar && ts[2] == TRParen {
      var tail := ts[2..];
      assert ts[1..][1..] == tail && Spaced(tail) && tail[0] == TRParen;
      SpacedCons(TIdent(name), tail);
      SpacedCons(TStar, [TIdent(name)] + tail);
      SpacedCons(TLParen, [TStar] + ([TIdent(name)] + tail));
      assert [TLParen, TStar, TIdent(name)] + tail == [TLParen] + ([TStar] + ([TIdent(name)] + tail));
    } else {
      InsertedSpaced(ts[1..], name);
      SpacedCons(ts[0], InsertName(ts[1..], name).value);
    }
  }

  /** The printed declaration of a name, appended or inserted. */
  lemma FormatDeclSpaced(t: CType, name: string)
    ensures Spaced(FormatDecl(t, name))
  {
    var decl := ToDecl(t, DName(None));
    ToDeclNoName(t, DName(None));
    SpacedCons(TIdent(name), []);
    SpacedCons(TSpace, [TIdent(name)]);
    assert [TIdent(name)] + [] == [TIdent(name)] && [TSpace] + [TIdent(name)] == [TSpace, TIdent(name)];
    SpacedDecl(decl, [TSpace, TIdent(name)]);
    SpacedDecl(decl, []);
    assert Signature(t) + [] == Signature(t);
    if InsertName(Signature(t), name).Some? { InsertedSpaced(Signature(t), name); }
  }

  lemma FormatDeclKnown(scope: Scope, t: CType, name: string)
    requires EverySpec(t, Specs(scope))
    ensures KnownTokens(scope, name, FormatDecl(t, name))
  {
    SpecsOfSignature(t, Specs(scope));
    var ts := Signature(t);
    ToDeclNoName(t, DName(None));
    SpacedDecl(ToDecl(t, DName(None)), []);
    assert ts + [] == ts;
    forall i | 0 <= i < |FormatDecl(t, name)|
      ensures KnownToken(scope, name, FormatDecl(t, name)[i])
    {
      if IsFunctionPointer(t) && InsertName(ts, name).Some? {
        InsertedSpaced(ts, name);
      } else {
        assert FormatDecl(t, name) == ts + [TSpace, TIdent(name)];
        if i < |ts| { assert FormatDecl(t, name)[i] in ts; }
      }
    }
  }

  lemma {:induction false} StripTwice(ts: seq<Token>)
    ensures Strip(Strip(ts)) == Strip(ts)
  {
    if ts != [] {
      StripTwice(ts[1..]);
      if ts[0] != TSpace { assert Strip(ts)[1..] == Strip(ts[1..]); }
    }
  }

  lemma {:induction false} ScopeIsClean(scope: Scope, t: CType)
    requires ProperScope(scope) && EverySpec(t, Specs(scope))
    ensures CleanType(t)
    decreases t
  {
    match t
    case Named(_, s) => assert NameText(s.name);
    case Ptr(_, p) => ScopeIsClean(scope, p);
    case Fn(r, ps, _) =>
      ScopeIsClean(scope, r);
      forall i | 0 <= i < |ps| ensures EverySpec(ps[i], CleanSpec()) { ScopeIsClean(scope, ps[i]); }
  }

  /**
   `format_decl` on text: for all type names in scope and every new name, the text declares the name with the type
   if and only if the type is declarable.
   */
  lemma FormatTextCorrect(scope: Scope, t: CType, name: string)
    requires WellFormed(t) && ProperScope(scope) && EverySpec(t, Specs(scope)) && NewName(scope, name)
    ensures ParseText(scope, FormatText(Text(Signature(t)), IsFunctionPointer(t), name)) == Some(Meaning(Some(name), t))
            <==> Declarable(t)
  {
    hide Lex, Text, FormatText, Spaced, KnownTokens, EverySpec, ParseDecl;
    ScopeIsClean(scope, t);
    FormatTextRefines(t, name);
    FormatDeclSpaced(t, name);
    FormatDeclKnown(scope, t, name);
    LexTokens(scope, name, FormatDecl(t, name));
    StripTwice(FormatDecl(t, name));
    FormatDeclCorrect(t, name);
  }
}
