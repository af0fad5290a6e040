/** C types as the thunk generator sees them, and the tokens their printed form is made of. */
module CTypes {

  /** A type specifier: a builtin or record name, or the name of a typedef together with what it stands for. */
  datatype Spec =
    | Builtin(name: string)
    | Typedef(name: string, meaning: CType)

  datatype CType =
    | Named(isConst: bool, spec: Spec)
    | Ptr(isConst: bool, pointee: CType)
    | Fn(ret: CType, params: seq<CType>, variadic: bool)

  const VOID := Named(false, Builtin("void"))
  const SIZE_T := Named(false, Builtin("unsigned long"))

  function WithConst(t: CType, c: bool): CType {
    match t
    case Named(q, s) => Named(q || c, s)
    case Ptr(q, p) => Ptr(q || c, p)
    case Fn(_, _, _) => t
  }

  function WithoutConst(t: CType): CType {
    match t
    case Named(_, s) => Named(false, s)
    case Ptr(_, p) => Ptr(false, p)
    case Fn(_, _, _) => t
  }

  /**
   Typedefs expanded everywhere, and the outermost qualifier of parameters dropped: two spellings of one type
   have the same canonical type.
   */
  function Canonical(t: CType): CType
    decreases t
  {
    match t
    case Named(q, Builtin(_)) => t
    case Named(q, Typedef(_, m)) => WithConst(Canonical(m), q)
    case Ptr(q, p) => Ptr(q, Canonical(p))
    case Fn(r, ps, v) => Fn(Canonical(r), seq(|ps|, i requires 0 <= i < |ps| => WithoutConst(Canonical(ps[i]))), v)
  }

  /** An object of this type cannot be assigned to. */
  predicate IsConst(t: CType) {
    WithoutConst(Canonical(t)) != Canonical(t)
  }

  /** The type without its outermost qualifier; a typedef of a constant type is expanded for it. */
  function Unqualified(t: CType): CType
    decreases t
  {
    match t
    case Named(_, Typedef(_, m)) => if IsConst(m) then Unqualified(m) else Named(false, t.spec)
    case _ => WithoutConst(t)
  }

  lemma {:induction false} UnqualifiedCanonical(t: CType)
    ensures Canonical(Unqualified(t)) == WithoutConst(Canonical(t))
    decreases t
  {
    match t
    case Named(c, Typedef(_, m)) =>
      UnqualifiedCanonical(m);
      assert Canonical(t) == WithConst(Canonical(m), c);
    case Named(_, Builtin(_)) =>
    case Ptr(c, p) => assert Canonical(t) == Ptr(c, Canonical(p))
        && Canonical(Ptr(false, p)) == Ptr(false, Canonical(p));
    case Fn(_, _, _) =>
  }

  /** Without its qualifier a type can be assigned to, and points to the same function if it does to one. */
  lemma UnqualifiedKeeps(t: CType)
    ensures !IsConst(Unqualified(t))
    ensures IsFunctionPointer(Unqualified(t)) == IsFunctionPointer(t)
    ensures IsFunctionPointer(t) ==> Callee(Unqualified(t)) == Callee(t)
  {
    UnqualifiedCanonical(t);
  }

  predicate IsFunctionPointer(t: CType) {
    Canonical(t).Ptr? && Canonical(t).pointee.Fn?
  }

  predicate IsVoid(t: CType) {
    Canonical(t).Named? && Canonical(t).spec == Builtin("void")
  }

  /** The function type a function pointer points to, typedefs expanded. */
  function Callee(t: CType): CType
    requires IsFunctionPointer(t)
  {
    Canonical(t).pointee
  }

  /** The function type as it is written, behind typedefs of the pointer and of the function. */
  function SpelledCallee(t: CType): (f: CType)
    requires IsFunctionPointer(t)
    ensures f.Fn? && Canonical(f) == Callee(t)
    decreases t
  {
    match t
    case Named(_, Typedef(_, m)) => SpelledCallee(m)
    case Ptr(_, p) => SpelledFunction(p)
  }

  function SpelledFunction(t: CType): (f: CType)
    requires Canonical(t).Fn?
    ensures f.Fn? && Canonical(f) == Canonical(t)
    decreases t
  {
    match t
    case Named(_, Typedef(_, m)) => SpelledFunction(m)
    case Fn(_, _, _) => t
  }

  datatype Token =
    | TSpec(spec: Spec)
    | TConst
    | TStar
    | TLParen
    | TRParen
    | TComma
    | TDots
    | TIdent(name: string)
    | TSpace

  function TokenText(t: Token): string {
    match t
    case TSpec(s) => s.name
    case TConst => "const"
    case TStar => "*"
    case TLParen => "("
    case TRParen => ")"
    case TComma => ", "
    case TDots => "..."
    case TIdent(n) => n
    case TSpace => " "
  }

  function Text(ts: seq<Token>): string {
    if ts == [] then "" else TokenText(ts[0]) + Text(ts[1..])
  }
}
