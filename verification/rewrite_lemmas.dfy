/** What the union rewrite guarantees for every runtime: it changes
    nothing but infix-or nodes, it changes nothing at all where `|` is
    supported, and (with the children spliced back) every `|` it keeps can
    be evaluated. */
module RewriteLemmas {
  import opened Wrappers
  import opened Syntax
  import opened Native
  import opened Classifier
  import opened UnionRewrite

  /** Visiting a list succeeds exactly when every element's visit does, and
      yields what each element's visit returned, in order. */
  lemma {:induction false} VisitAllElementwise<V>(rt: Runtime<V>, tr: UnionTransformer<V>, es: seq<Expr>, mode: Mode)
    ensures VisitAll(rt, tr, es, mode).Success? <==> forall i :: 0 <= i < |es| ==> Visit(rt, tr, es[i], mode).Success?
    ensures VisitAll(rt, tr, es, mode).Success? ==>
      && |VisitAll(rt, tr, es, mode).value| == |es|
      && forall i :: 0 <= i < |es| ==> VisitAll(rt, tr, es, mode).value[i] == Visit(rt, tr, es[i], mode).value.returned
    decreases es
  {
    if |es| > 0 {
      VisitAllElementwise(rt, tr, es[1..], mode);
      assert forall i :: 1 <= i < |es| ==> es[i] == es[1..][i - 1];
    }
  }

  /** The first error of a failing list visit is the error of the first
      element whose visit fails. */
  lemma {:induction false} VisitAllFirstError<V>(rt: Runtime<V>, tr: UnionTransformer<V>, es: seq<Expr>, mode: Mode, k: nat)
    requires k < |es| && Visit(rt, tr, es[k], mode).Failure?
    requires forall i :: 0 <= i < k ==> Visit(rt, tr, es[i], mode).Success?
    ensures VisitAll(rt, tr, es, mode) == Failure(Visit(rt, tr, es[k], mode).error)
    decreases es
  {
    if k > 0 {
      assert forall i :: 0 <= i < k - 1 ==> es[1..][i] == es[i + 1];
      VisitAllFirstError(rt, tr, es[1..], mode, k - 1);
    }
  }

  /** The rewrite is undone by `Erase`: as long as the parsed tree does not
      already mention the private alias, a successful visit only ever
      replaced infix-or nodes by `alias.Union[...]`, in the returned tree and
      in the mutated original alike. */
  lemma {:induction false} VisitErasesBack<V>(rt: Runtime<V>, tr: UnionTransformer<V>, e: Expr, mode: Mode)
    ensures !Mentions(e, tr.typingName) && Visit(rt, tr, e, mode).Success? ==>
      && Erase(tr.typingName, Visit(rt, tr, e, mode).value.returned) == e
      && Erase(tr.typingName, Visit(rt, tr, e, mode).value.inPlace) == e
    decreases e
  {
    var alias := tr.typingName;
    var unionHead := Attribute(Name(alias), UnionAttr);
    assert Erase(alias, unionHead) == unionHead && Mentions(unionHead, alias);
    if !Mentions(e, alias) && Visit(rt, tr, e, mode).Success? {
      match e
      case Name(_) =>
      case Constant(_) =>
      case Attribute(v, _) => VisitErasesBack(rt, tr, v, mode);
      case Subscript(v, s) => VisitErasesBack(rt, tr, v, mode); VisitErasesBack(rt, tr, s, mode);
      case Tuple(es) =>
        VisitAllElementwise(rt, tr, es, mode);
        forall i | 0 <= i < |es| ensures Erase(alias, Visit(rt, tr, es[i], mode).value.returned) == es[i] {
          VisitErasesBack(rt, tr, es[i], mode);
        }
      case Other(_, cs) =>
        VisitAllElementwise(rt, tr, cs, mode);
        forall i | 0 <= i < |cs| ensures Erase(alias, Visit(rt, tr, cs[i], mode).value.returned) == cs[i] {
          VisitErasesBack(rt, tr, cs[i], mode);
        }
      case BinOp(l, op, r) =>
        if op == BitOr {
          VisitErasesBack(rt, tr, l, mode);
          VisitErasesBack(rt, tr, r, mode);
          var lv := Visit(rt, tr, l, mode).value;
          var rv := Visit(rt, tr, r, mode).value;
          EraseUnionOf(alias, lv.returned, rv.returned);
        } else {
          EraseWithoutAlias(alias, e);
        }
    }
  }

  /** A tree without an infix-or that the walk reaches comes back from the
      walk exactly as parsed, and unmutated, whatever the runtime. */
  lemma {:induction false} VisitWithoutOr<V>(rt: Runtime<V>, tr: UnionTransformer<V>, e: Expr, mode: Mode)
    requires OrFree(e)
    ensures Visit(rt, tr, e, mode) == Success(Visited(e, e))
    decreases e
  {
    match e
    case Name(_) =>
    case Constant(_) =>
    case Attribute(v, _) => VisitWithoutOr(rt, tr, v, mode);
    case Subscript(v, s) => VisitWithoutOr(rt, tr, v, mode); VisitWithoutOr(rt, tr, s, mode);
    case Tuple(es) =>
      forall i | 0 <= i < |es| ensures Visit(rt, tr, es[i], mode) == Success(Visited(es[i], es[i])) {
        VisitWithoutOr(rt, tr, es[i], mode);
      }
      VisitAllElementwise(rt, tr, es, mode);
      assert VisitAll(rt, tr, es, mode).value == es;
    case BinOp(_, _, _) =>
    case Other(_, cs) =>
      forall i | 0 <= i < |cs| ensures Visit(rt, tr, cs[i], mode) == Success(Visited(cs[i], cs[i])) {
        VisitWithoutOr(rt, tr, cs[i], mode);
      }
      VisitAllElementwise(rt, tr, cs, mode);
      assert VisitAll(rt, tr, cs, mode).value == cs;
  }

  /** At this `l | r`, with these scopes, `|` does not fail with the
      unsupported-operand error (when both operands evaluate). */
  ghost predicate OrSupported<V>(rt: Runtime<V>, tr: UnionTransformer<V>, l: Expr, r: Expr) {
    EvalType(rt, tr, l).Success? && EvalType(rt, tr, r).Success? ==>
      var c := rt.orOp(EvalType(rt, tr, l).value, EvalType(rt, tr, r).value);
      c.Failure? ==> !IsUnionFallbackError(c.error)
  }

  /** Every infix-or the walk reaches in `t` is supported on its original
      operands. */
  ghost predicate OrsSupported<V>(rt: Runtime<V>, tr: UnionTransformer<V>, t: Expr) {
    match t
    case Name(_) => true
    case Constant(_) => true
    case Attribute(v, _) => OrsSupported(rt, tr, v)
    case Subscript(v, s) => OrsSupported(rt, tr, v) && OrsSupported(rt, tr, s)
    case Tuple(es) => forall i :: 0 <= i < |es| ==> OrsSupported(rt, tr, es[i])
    case Other(_, cs) => forall i :: 0 <= i < |cs| ==> OrsSupported(rt, tr, cs[i])
    case BinOp(l, op, r) => op == BitOr ==> OrSupported(rt, tr, l, r) && OrsSupported(rt, tr, l) && OrsSupported(rt, tr, r)
  }

  /** Where every `|` the walk reaches is supported on the operand types
      involved, a successful walk returns the tree as parsed and mutates
      nothing. */
  lemma {:induction false} VisitUnchangedWhereOrSupported<V>(rt: Runtime<V>, tr: UnionTransformer<V>, e: Expr, mode: Mode)
    requires OrsSupported(rt, tr, e)
    ensures Visit(rt, tr, e, mode).Success? ==>
      Visit(rt, tr, e, mode).value.returned == e && Visit(rt, tr, e, mode).value.inPlace == e
    decreases e
  {
    if Visit(rt, tr, e, mode).Success? {
      match e
      case Name(_) =>
      case Constant(_) =>
      case Attribute(v, _) => VisitUnchangedWhereOrSupported(rt, tr, v, mode);
      case Subscript(v, s) => VisitUnchangedWhereOrSupported(rt, tr, v, mode); VisitUnchangedWhereOrSupported(rt, tr, s, mode);
      case Tuple(es) =>
        VisitAllElementwise(rt, tr, es, mode);
        forall i | 0 <= i < |es| ensures Visit(rt, tr, es[i], mode).value.returned == es[i] {
          VisitUnchangedWhereOrSupported(rt, tr, es[i], mode);
        }
      case Other(_, cs) =>
        VisitAllElementwise(rt, tr, cs, mode);
        forall i | 0 <= i < |cs| ensures Visit(rt, tr, cs[i], mode).value.returned == cs[i] {
          VisitUnchangedWhereOrSupported(rt, tr, cs[i], mode);
        }
      case BinOp(l, op, r) =>
        if op == BitOr {
          VisitUnchangedWhereOrSupported(rt, tr, l, mode);
          VisitUnchangedWhereOrSupported(rt, tr, r, mode);
        }
    }
  }

  /** Visiting `l | r` is visiting both operands, then the `|` step. */
  lemma VisitOrOfVisited<V>(rt: Runtime<V>, tr: UnionTransformer<V>, l: Expr, r: Expr, lv: Visited, rv: Visited, mode: Mode)
    requires Visit(rt, tr, l, mode) == Success(lv) && Visit(rt, tr, r, mode) == Success(rv)
    ensures Visit(rt, tr, BinOp(l, BitOr, r), mode) == RewriteOr(rt, tr, lv, rv, mode)
  {
  }

  /** Both operands of a kept `l | r` evaluate and `|` succeeds on them. */
  ghost predicate OrCombines<V>(rt: Runtime<V>, tr: UnionTransformer<V>, l: Expr, r: Expr) {
    && EvalType(rt, tr, l).Success?
    && EvalType(rt, tr, r).Success?
    && rt.orOp(EvalType(rt, tr, l).value, EvalType(rt, tr, r).value).Success?
  }

  /** Every infix-or the walk reaches in `t` combines: no `|` the rewrite
      was responsible for is left to fail at the final evaluation.
      Operands of other binary operators are not walked, as in the visit. */
  ghost predicate OrsCombine<V>(rt: Runtime<V>, tr: UnionTransformer<V>, t: Expr) {
    match t
    case Name(_) => true
    case Constant(_) => true
    case Attribute(v, _) => OrsCombine(rt, tr, v)
    case Subscript(v, s) => OrsCombine(rt, tr, v) && OrsCombine(rt, tr, s)
    case Tuple(es) => forall i :: 0 <= i < |es| ==> OrsCombine(rt, tr, es[i])
    case Other(_, cs) => forall i :: 0 <= i < |cs| ==> OrsCombine(rt, tr, cs[i])
    case BinOp(l, op, r) => op == BitOr ==> OrCombines(rt, tr, l, r) && OrsCombine(rt, tr, l) && OrsCombine(rt, tr, r)
  }

  /** With the visited children spliced back into kept nodes, every `|`
      left in the rewritten tree is one whose operands were shown to
      combine. */
  lemma {:induction false} SplicedVisitCombinesEveryOr<V>(rt: Runtime<V>, tr: UnionTransformer<V>, e: Expr)
    ensures Visit(rt, tr, e, Spliced).Success? ==> OrsCombine(rt, tr, Visit(rt, tr, e, Spliced).value.returned)
    decreases e
  {
    if Visit(rt, tr, e, Spliced).Success? {
      match e
      case Name(_) =>
      case Constant(_) =>
      case Attribute(v, _) => SplicedVisitCombinesEveryOr(rt, tr, v);
      case Subscript(v, s) => SplicedVisitCombinesEveryOr(rt, tr, v); SplicedVisitCombinesEveryOr(rt, tr, s);
      case Tuple(es) =>
        VisitAllElementwise(rt, tr, es, Spliced);
        forall i | 0 <= i < |es| ensures OrsCombine(rt, tr, Visit(rt, tr, es[i], Spliced).value.returned) {
          SplicedVisitCombinesEveryOr(rt, tr, es[i]);
        }
      case Other(_, cs) =>
        VisitAllElementwise(rt, tr, cs, Spliced);
        forall i | 0 <= i < |cs| ensures OrsCombine(rt, tr, Visit(rt, tr, cs[i], Spliced).value.returned) {
          SplicedVisitCombinesEveryOr(rt, tr, cs[i]);
        }
      case BinOp(l, op, r) =>
        if op == BitOr {
          SplicedVisitCombinesEveryOr(rt, tr, l);
          SplicedVisitCombinesEveryOr(rt, tr, r);
          var lv := Visit(rt, tr, l, Spliced).value;
          var rv := Visit(rt, tr, r, Spliced).value;
          var u := UnionOf(tr.typingName, lv.returned, rv.returned);
          assert OrsCombine(rt, tr, u.slice.elts[0]) && OrsCombine(rt, tr, u.slice.elts[1]);
        }
    }
  }
}
