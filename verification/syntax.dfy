/** The expression syntax trees that `ast.parse(..., mode='eval')` produces,
    restricted to what type expressions use, plus the tree shape of the
    explicit union `alias.Union[l, r]` that the rewrite introduces. */
module Syntax {

  /** Python's binary operator kinds (`ast.operator`). */
  datatype Operator =
    | Add | Sub | Mult | MatMult | Div | Mod | Pow
    | LShift | RShift | BitOr | BitXor | BitAnd | FloorDiv

  /** An expression node. `Other` stands for every remaining node kind
      (a call, a list display, a unary operation, ...): the rewrite only
      walks through its children. Load contexts, source positions and the
      `ast.Index` slice wrapper of older Pythons are not represented. */
  datatype Expr =
    | Name(id: string)
    | Constant(literal: string)
    | Attribute(value: Expr, attr: string)
    | Subscript(value: Expr, slice: Expr)
    | Tuple(elts: seq<Expr>)
    | BinOp(left: Expr, op: Operator, right: Expr)
    | Other(kind: string, children: seq<Expr>)

  /** The attribute of the typing module that the rewrite subscripts. */
  const UnionAttr: string := "Union"

  /** `alias.Union[l, r]`: the replacement for an infix-or node `l | r`. */
  function UnionOf(alias: string, l: Expr, r: Expr): (u: Expr) {
    Subscript(Attribute(Name(alias), UnionAttr), Tuple([l, r]))
  }

  /** Whether `t` has the shape of a replacement produced by `UnionOf(alias, _, _)`. */
  predicate IsUnionOf(alias: string, t: Expr) {
    && t.Subscript?
    && t.value == Attribute(Name(alias), UnionAttr)
    && t.slice.Tuple?
    && |t.slice.elts| == 2
  }

  /** Whether the identifier `n` occurs as a name anywhere in `e`. */
  predicate Mentions(e: Expr, n: string) {
    match e
    case Name(id) => id == n
    case Constant(_) => false
    case Attribute(v, _) => Mentions(v, n)
    case Subscript(v, s) => Mentions(v, n) || Mentions(s, n)
    case Tuple(es) => exists i :: 0 <= i < |es| && Mentions(es[i], n)
    case BinOp(l, _, r) => Mentions(l, n) || Mentions(r, n)
    case Other(_, cs) => exists i :: 0 <= i < |cs| && Mentions(cs[i], n)
  }

  /** No infix-or that the rewrite walk reaches: operands of other binary
      operators are not walked, so an `|` below them does not count. */
  predicate OrFree(e: Expr) {
    match e
    case Name(_) => true
    case Constant(_) => true
    case Attribute(v, _) => OrFree(v)
    case Subscript(v, s) => OrFree(v) && OrFree(s)
    case Tuple(es) => forall i :: 0 <= i < |es| ==> OrFree(es[i])
    case BinOp(_, op, _) => op != BitOr
    case Other(_, cs) => forall i :: 0 <= i < |cs| ==> OrFree(cs[i])
  }

  /** Undo the rewrite: turn every `alias.Union[a, b]` back into `a | b`. */
  function Erase(alias: string, t: Expr): (r: Expr) {
    if IsUnionOf(alias, t) then
      BinOp(Erase(alias, t.slice.elts[0]), BitOr, Erase(alias, t.slice.elts[1]))
    else
      match t
      case Name(_) => t
      case Constant(_) => t
      case Attribute(v, a) => Attribute(Erase(alias, v), a)
      case Subscript(v, s) => Subscript(Erase(alias, v), Erase(alias, s))
      case Tuple(es) => Tuple(seq(|es|, i requires 0 <= i < |es| => Erase(alias, es[i])))
      case BinOp(l, op, r) => BinOp(Erase(alias, l), op, Erase(alias, r))
      case Other(k, cs) => Other(k, seq(|cs|, i requires 0 <= i < |cs| => Erase(alias, cs[i])))
  }

  /** Erasing undoes exactly one replacement. */
  lemma EraseUnionOf(alias: string, l: Expr, r: Expr)
    ensures Erase(alias, UnionOf(alias, l, r)) == BinOp(Erase(alias, l), BitOr, Erase(alias, r))
  {
  }

  /** A tree that never mentions the alias has nothing to erase. */
  lemma {:induction false} EraseWithoutAlias(alias: string, e: Expr)
    requires !Mentions(e, alias)
    ensures Erase(alias, e) == e
  {
    match e
    case Name(_) =>
    case Constant(_) =>
    case Attribute(v, _) => EraseWithoutAlias(alias, v);
    case Subscript(v, s) => EraseWithoutAlias(alias, v); EraseWithoutAlias(alias, s);
    case Tuple(es) =>
      forall i | 0 <= i < |es| ensures Erase(alias, es[i]) == es[i] {
        EraseWithoutAlias(alias, es[i]);
      }
    case BinOp(l, _, r) => EraseWithoutAlias(alias, l); EraseWithoutAlias(alias, r);
    case Other(_, cs) =>
      forall i | 0 <= i < |cs| ensures Erase(alias, cs[i]) == cs[i] {
        EraseWithoutAlias(alias, cs[i]);
      }
  }
}
