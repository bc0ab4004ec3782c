/** The public entry point: try the native resolver, and fall back to the
    union rewrite only on the unsupported-`|` failure of a forward
    reference. */
module Backport {
  import opened Wrappers
  import opened Syntax
  import opened Native
  import opened Classifier
  import opened UnionRewrite
  import opened RewriteLemmas

  /** `value.__forward_arg__` on something that is not a `ForwardRef`;
      Python's message also names the value's type in front. */
  const NoForwardArg: Err := Err(AttributeError, "object has no attribute '__forward_arg__'")

  /** `_eval_direct`: parse the forward reference's text, rewrite the tree
      with a fresh transformer, then evaluate the whole tree once. The
      context flags of the reference are not consulted. */
  function EvalDirect<V>(rt: Runtime<V>, value: Annotation<V>, globalns: Option<Env<V>>, localns: Option<Env<V>>,
                         uuidHex: string): (r: Result<V, Err>)
    ensures value.Plain? ==> r == Failure(NoForwardArg)
    ensures value.ForwardRef? && rt.parse(value.arg).Failure? ==> r == Failure(rt.parse(value.arg).error)
    ensures value.ForwardRef? && rt.parse(value.arg).Success? ==>
      var tr := NewUnionTransformer(globalns, localns, uuidHex, rt.typingModule);
      var w := Visit(rt, tr, rt.parse(value.arg).value, AsWritten);
      && (w.Failure? ==> r == Failure(w.error))
      && (w.Success? ==> r == rt.evalTree(w.value.returned, tr.globalns, tr.localns))
  {
    if !value.ForwardRef? then Failure(NoForwardArg)
    else
      var tree :- rt.parse(value.arg);
      var tr := NewUnionTransformer(globalns, localns, uuidHex, rt.typingModule);
      var t :- Visit(rt, tr, tree, AsWritten);
      EvalType(rt, tr, t.returned)
  }

  /** `eval_type_backport`. With `tryDefault` off the rewrite path is taken
      directly; otherwise the native result is returned unless it is the
      unsupported-`|` `TypeError` of a forward reference, and every other
      failure is re-raised unchanged. */
  function EvalTypeBackport<V>(rt: Runtime<V>, value: Annotation<V>, globalns: Option<Env<V>>, localns: Option<Env<V>>,
                               tryDefault: bool, uuidHex: string): (r: Result<V, Err>)
    ensures !tryDefault ==> r == EvalDirect(rt, value, globalns, localns, uuidHex)
    ensures tryDefault && rt.evalType(value, globalns, localns).Success? ==> r == rt.evalType(value, globalns, localns)
    ensures tryDefault && r != rt.evalType(value, globalns, localns) ==>
      && value.ForwardRef?
      && rt.evalType(value, globalns, localns).Failure?
      && IsUnionFallbackError(rt.evalType(value, globalns, localns).error)
    ensures tryDefault && value.ForwardRef? && rt.evalType(value, globalns, localns).Failure?
            && IsUnionFallbackError(rt.evalType(value, globalns, localns).error) ==>
      r == EvalDirect(rt, value, globalns, localns, uuidHex)
  {
    if !tryDefault then EvalDirect(rt, value, globalns, localns, uuidHex)
    else
      match rt.evalType(value, globalns, localns)
      case Success(v) => Success(v)
      case Failure(err) =>
        if value.ForwardRef? && IsUnionFallbackError(err) then EvalDirect(rt, value, globalns, localns, uuidHex)
        else Failure(err)
  }

  /** The native resolver, on this text with the default flags
      (`is_argument=True`, `is_class=False`: the flags of the reference
      `eval_type` builds) and these scopes, parses the text and evaluates
      the tree against the normalised scopes, as the rewrite path does with
      nothing rewritten. */
  ghost predicate ResolvesByParsingAt<V>(rt: Runtime<V>, s: string, globalns: Option<Env<V>>, localns: Option<Env<V>>) {
    rt.evalType(ForwardRef(s, true, false), globalns, localns)
    == match rt.parse(s)
       case Failure(e) => Failure(e)
       case Success(t) => rt.evalTree(t, NormalizeScopes(globalns, localns).0, NormalizeScopes(globalns, localns).1)
  }

  /** Evaluating `e` in these scopes does not depend on the extra local
      binding `n` (it holds when `e` never names `n` and does not inspect
      its scopes, as a call to `locals()` would). */
  ghost predicate IgnoresLocalAt<V>(rt: Runtime<V>, e: Expr, g: Env<V>, l: Env<V>, n: string, v: V) {
    rt.evalTree(e, g, AugmentLocals(l, n, v)) == rt.evalTree(e, g, l)
  }

  /** The evaluation of the parsed text of `s` ignores the transformer's
      alias (vacuous when the text does not parse). */
  ghost predicate IgnoresAliasAt<V>(rt: Runtime<V>, s: string, globalns: Option<Env<V>>, localns: Option<Env<V>>, uuidHex: string) {
    rt.parse(s).Success? ==>
      IgnoresLocalAt(rt, rt.parse(s).value, NormalizeScopes(globalns, localns).0, NormalizeScopes(globalns, localns).1,
                     AliasPrefix + uuidHex, rt.typingModule)
  }

  /** Whenever the rewrite path gives the native answer, the dispatcher
      gives it too, whatever `try_default` says. */
  lemma RoutingKeepsAgreement<V>(rt: Runtime<V>, value: Annotation<V>, globalns: Option<Env<V>>, localns: Option<Env<V>>,
                                 uuidHex: string)
    requires EvalDirect(rt, value, globalns, localns, uuidHex) == rt.evalType(value, globalns, localns)
    ensures EvalTypeBackport(rt, value, globalns, localns, false, uuidHex) == rt.evalType(value, globalns, localns)
    ensures EvalTypeBackport(rt, value, globalns, localns, true, uuidHex) == rt.evalType(value, globalns, localns)
  {
  }

  /** When the text does not parse, or the walk leaves the parsed tree as it
      was, the rewrite path gives the native answer at this text and these
      scopes. */
  lemma DirectAgreesWhenWalkIsIdentity<V>(rt: Runtime<V>, s: string, globalns: Option<Env<V>>, localns: Option<Env<V>>,
                                          uuidHex: string)
    requires ResolvesByParsingAt(rt, s, globalns, localns) && IgnoresAliasAt(rt, s, globalns, localns, uuidHex)
    requires rt.parse(s).Success? ==>
      var tr := NewUnionTransformer(globalns, localns, uuidHex, rt.typingModule);
      && Visit(rt, tr, rt.parse(s).value, AsWritten).Success?
      && Visit(rt, tr, rt.parse(s).value, AsWritten).value.returned == rt.parse(s).value
    ensures EvalDirect(rt, ForwardRef(s, true, false), globalns, localns, uuidHex)
            == rt.evalType(ForwardRef(s, true, false), globalns, localns)
  {
    var (g, l) := NormalizeScopes(globalns, localns);
    if rt.parse(s).Success? {
      var tree := rt.parse(s).value;
      var tr := NewUnionTransformer(globalns, localns, uuidHex, rt.typingModule);
      assert tr.globalns == g && tr.localns == AugmentLocals(l, AliasPrefix + uuidHex, rt.typingModule);
    }
  }

  /** Where `|` is supported on the operand types the text combines, the
      caller cannot tell the two paths apart: whenever the text does not
      parse or the walk succeeds, both settings of `try_default` give the
      native answer, failures included. */
  lemma ForcedFallbackAgreesWithNative<V>(rt: Runtime<V>, s: string, globalns: Option<Env<V>>, localns: Option<Env<V>>,
                                          uuidHex: string)
    requires ResolvesByParsingAt(rt, s, globalns, localns) && IgnoresAliasAt(rt, s, globalns, localns, uuidHex)
    requires rt.parse(s).Success? ==>
      OrsSupported(rt, NewUnionTransformer(globalns, localns, uuidHex, rt.typingModule), rt.parse(s).value)
    ensures var tr := NewUnionTransformer(globalns, localns, uuidHex, rt.typingModule);
      rt.parse(s).Failure? || Visit(rt, tr, rt.parse(s).value, AsWritten).Success? ==>
        && EvalTypeBackport(rt, ForwardRef(s, true, false), globalns, localns, false, uuidHex)
           == rt.evalType(ForwardRef(s, true, false), globalns, localns)
        && EvalTypeBackport(rt, ForwardRef(s, true, false), globalns, localns, true, uuidHex)
           == rt.evalType(ForwardRef(s, true, false), globalns, localns)
  {
    var tr := NewUnionTransformer(globalns, localns, uuidHex, rt.typingModule);
    if rt.parse(s).Failure? || Visit(rt, tr, rt.parse(s).value, AsWritten).Success? {
      if rt.parse(s).Success? {
        VisitUnchangedWhereOrSupported(rt, tr, rt.parse(s).value, AsWritten);
      }
      DirectAgreesWhenWalkIsIdentity(rt, s, globalns, localns, uuidHex);
      RoutingKeepsAgreement(rt, ForwardRef(s, true, false), globalns, localns, uuidHex);
    }
  }

  /** A forward reference whose parsed tree has no `|` that the walk
      reaches resolves to the native answer on both paths, on every runtime
      that resolves it by parsing and ignores the alias. */
  lemma OrFreeAgreesWithNative<V>(rt: Runtime<V>, s: string, globalns: Option<Env<V>>, localns: Option<Env<V>>,
                                  uuidHex: string)
    requires ResolvesByParsingAt(rt, s, globalns, localns) && IgnoresAliasAt(rt, s, globalns, localns, uuidHex)
    requires rt.parse(s).Success? ==> OrFree(rt.parse(s).value)
    ensures EvalTypeBackport(rt, ForwardRef(s, true, false), globalns, localns, false, uuidHex)
            == rt.evalType(ForwardRef(s, true, false), globalns, localns)
    ensures EvalTypeBackport(rt, ForwardRef(s, true, false), globalns, localns, true, uuidHex)
            == rt.evalType(ForwardRef(s, true, false), globalns, localns)
  {
    if rt.parse(s).Success? {
      var tr := NewUnionTransformer(globalns, localns, uuidHex, rt.typingModule);
      VisitWithoutOr(rt, tr, rt.parse(s).value, AsWritten);
    }
    DirectAgreesWhenWalkIsIdentity(rt, s, globalns, localns, uuidHex);
    RoutingKeepsAgreement(rt, ForwardRef(s, true, false), globalns, localns, uuidHex);
  }

  /** A parsed tree whose root is a binary operation other than `|` is
      evaluated exactly as parsed, so its failure (say `int + str`) is
      reported and nothing below it is rewritten. */
  lemma OtherOperatorEvaluatedAsParsed<V>(rt: Runtime<V>, s: string, isArgument: bool, isClass: bool,
                                          globalns: Option<Env<V>>, localns: Option<Env<V>>, uuidHex: string)
    requires rt.parse(s).Success? && rt.parse(s).value.BinOp? && rt.parse(s).value.op != BitOr
    ensures var tr := NewUnionTransformer(globalns, localns, uuidHex, rt.typingModule);
      EvalDirect(rt, ForwardRef(s, isArgument, isClass), globalns, localns, uuidHex)
      == rt.evalTree(rt.parse(s).value, tr.globalns, tr.localns)
  {
  }

  /** When the two operands of a top-level `l | r` evaluate but `|` fails
      for any reason other than the unsupported-operand one, the rewrite
      path reports that very error. */
  lemma OtherOrErrorSurfaces<V>(rt: Runtime<V>, s: string, isArgument: bool, isClass: bool,
                                globalns: Option<Env<V>>, localns: Option<Env<V>>, uuidHex: string, err: Err)
    requires rt.parse(s).Success? && rt.parse(s).value.BinOp? && rt.parse(s).value.op == BitOr
    requires var tr := NewUnionTransformer(globalns, localns, uuidHex, rt.typingModule);
      var tree := rt.parse(s).value;
      && Visit(rt, tr, tree.left, AsWritten).Success?
      && Visit(rt, tr, tree.right, AsWritten).Success?
      && EvalType(rt, tr, Visit(rt, tr, tree.left, AsWritten).value.returned).Success?
      && EvalType(rt, tr, Visit(rt, tr, tree.right, AsWritten).value.returned).Success?
      && rt.orOp(EvalType(rt, tr, Visit(rt, tr, tree.left, AsWritten).value.returned).value,
                 EvalType(rt, tr, Visit(rt, tr, tree.right, AsWritten).value.returned).value) == Failure(err)
    requires !IsUnionFallbackError(err)
    ensures EvalDirect(rt, ForwardRef(s, isArgument, isClass), globalns, localns, uuidHex) == Failure(err)
  {
  }

  /** A subscription `v[a0, ..., an]` is walked argument by argument: the
      error of the first argument whose walk fails (an operand that does
      not evaluate, or an `|` that fails for another reason) is the error
      the rewrite path reports. */
  lemma ArgumentErrorSurfaces<V>(rt: Runtime<V>, s: string, isArgument: bool, isClass: bool,
                                 globalns: Option<Env<V>>, localns: Option<Env<V>>, uuidHex: string,
                                 v: Expr, args: seq<Expr>, k: nat)
    requires rt.parse(s) == Success(Subscript(v, Tuple(args)))
    requires var tr := NewUnionTransformer(globalns, localns, uuidHex, rt.typingModule);
      && Visit(rt, tr, v, AsWritten).Success?
      && k < |args| && Visit(rt, tr, args[k], AsWritten).Failure?
      && forall i :: 0 <= i < k ==> Visit(rt, tr, args[i], AsWritten).Success?
    ensures EvalDirect(rt, ForwardRef(s, isArgument, isClass), globalns, localns, uuidHex)
            == Failure(Visit(rt, NewUnionTransformer(globalns, localns, uuidHex, rt.typingModule), args[k], AsWritten).error)
  {
    var tr := NewUnionTransformer(globalns, localns, uuidHex, rt.typingModule);
    VisitAllFirstError(rt, tr, args, AsWritten, k);
    var err := Visit(rt, tr, args[k], AsWritten).error;
    assert Visit(rt, tr, Tuple(args), AsWritten) == Failure(err);
    assert Visit(rt, tr, Subscript(v, Tuple(args)), AsWritten) == Failure(err);
  }
}
