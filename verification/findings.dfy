/** A `|` node that is kept because its operands combine still holds its
    ORIGINAL operand nodes: `visit_BinOp` never stores the visited
    children back. A nested `|` child that was rewritten is therefore lost,
    and the final evaluation fails on it. This module shows the failure on
    the concrete runtime and proves the corrected walk, which stores the
    visited children, free of it for every runtime. */
module Findings {
  import opened Wrappers
  import opened Syntax
  import opened Native
  import opened Classifier
  import opened UnionRewrite
  import opened RewriteLemmas
  import opened Backport
  import opened ToyRuntime
  import opened Scenarios

  /** `_eval_direct` with the visited children stored into every kept `|`
      node. Whatever it evaluates has every reachable `|` already shown to
      combine, and erasing the rewrite gives back the parsed tree. */
  function EvalDirectSpliced<V>(rt: Runtime<V>, value: Annotation<V>, globalns: Option<Env<V>>, localns: Option<Env<V>>,
                                uuidHex: string): (r: Result<V, Err>)
    ensures value.Plain? ==> r == Failure(NoForwardArg)
    ensures value.ForwardRef? && rt.parse(value.arg).Failure? ==> r == Failure(rt.parse(value.arg).error)
    ensures value.ForwardRef? && rt.parse(value.arg).Success? ==>
      var tr := NewUnionTransformer(globalns, localns, uuidHex, rt.typingModule);
      var tree := rt.parse(value.arg).value;
      var w := Visit(rt, tr, tree, Spliced);
      && (w.Failure? ==> r == Failure(w.error))
      && (w.Success? ==>
            && OrsCombine(rt, tr, w.value.returned)
            && (!Mentions(tree, tr.typingName) ==> Erase(tr.typingName, w.value.returned) == tree)
            && r == rt.evalTree(w.value.returned, tr.globalns, tr.localns))
  {
    if !value.ForwardRef? then Failure(NoForwardArg)
    else
      var tree :- rt.parse(value.arg);
      var tr := NewUnionTransformer(globalns, localns, uuidHex, rt.typingModule);
      SplicedVisitCombinesEveryOr(rt, tr, tree);
      VisitErasesBack(rt, tr, tree, Spliced);
      var t :- Visit(rt, tr, tree, Spliced);
      EvalType(rt, tr, t.returned)
  }

  /** `eval_type_backport` routed to the corrected rewrite path. */
  function EvalTypeBackportSpliced<V>(rt: Runtime<V>, value: Annotation<V>, globalns: Option<Env<V>>, localns: Option<Env<V>>,
                                      tryDefault: bool, uuidHex: string): (r: Result<V, Err>)
    ensures !tryDefault ==> r == EvalDirectSpliced(rt, value, globalns, localns, uuidHex)
    ensures tryDefault && rt.evalType(value, globalns, localns).Success? ==> r == rt.evalType(value, globalns, localns)
    ensures tryDefault && r != rt.evalType(value, globalns, localns) ==>
      && value.ForwardRef?
      && rt.evalType(value, globalns, localns).Failure?
      && IsUnionFallbackError(rt.evalType(value, globalns, localns).error)
    ensures tryDefault && value.ForwardRef? && rt.evalType(value, globalns, localns).Failure?
            && IsUnionFallbackError(rt.evalType(value, globalns, localns).error) ==>
      r == EvalDirectSpliced(rt, value, globalns, localns, uuidHex)
  {
    if !tryDefault then EvalDirectSpliced(rt, value, globalns, localns, uuidHex)
    else
      match rt.evalType(value, globalns, localns)
      case Success(v) => Success(v)
      case Failure(err) =>
        if value.ForwardRef? && IsUnionFallbackError(err) then EvalDirectSpliced(rt, value, globalns, localns, uuidHex)
        else Failure(err)
  }

  /** `(int | str) | Bar`, where `Bar`'s metaclass supports `|` from either side. */
  const NestedOrBar: Expr := BinOp(IntOrStr, BitOr, Name("Bar"))
  const NestedOrBarText: string := "(int | str) | Bar"

  /** The union `Union[int, str]` combined with `Bar` through `Bar.__ror__`. */
  const Intended: Ty := DictT(UnionT([Cls("int"), Cls("str")]), Cls("Bar"))

  /** The visit of `(int | str) | Bar`: the inner `|` is rewritten and
      `Union[int, str] | Bar` succeeds, so the outer node is kept. */
  lemma VisitNestedOrBar(mode: Mode)
    ensures Visit(Toy, TestTransformer(), NestedOrBar, mode)
            == var k := KeptOr(mode, Visited(UnionOf(Alias, Name("int"), Name("str")), IntOrStr), Visited(Name("Bar"), Name("Bar")));
               Success(Visited(k, k))
  {
    TestScopes();
    var tr := TestTransformer();
    var lv := Visited(UnionOf(Alias, Name("int"), Name("str")), IntOrStr);
    var rv := Visited(Name("Bar"), Name("Bar"));
    VisitIntOrStr(mode);
    VisitOrOfVisited(Toy, tr, IntOrStr, Name("Bar"), lv, rv, mode);
    EvalUnionIntStr();
    NamesResolve(tr.globalns, tr.localns);
    ToyFacilities(tr, Name("Bar"), UnionT([Cls("int"), Cls("str")]), Cls("Bar"));
  }

  /** As written, the kept outer node still holds the original `int | str`,
      whose operands do not combine. */
  lemma AsWrittenBreaksInvariant()
    ensures Visit(Toy, TestTransformer(), NestedOrBar, AsWritten) == Success(Visited(NestedOrBar, NestedOrBar))
    ensures !OrsCombine(Toy, TestTransformer(), NestedOrBar)
  {
    TestScopes();
    PrefixedTypeErrorQualifies(TypePair);
    var tr := TestTransformer();
    VisitNestedOrBar(AsWritten);
    NamesResolve(tr.globalns, tr.localns);
    ToyFacilities(tr, Name("int"), Cls("int"), Cls("str"));
    ToyFacilities(tr, Name("str"), Cls("int"), Cls("str"));
    assert !OrCombines(Toy, tr, Name("int"), Name("str"));
  }

  /** Evaluating the kept tree fails on the inner `int | str`. */
  lemma AsWrittenFinalEvalFails()
    ensures EvalType(Toy, TestTransformer(), NestedOrBar) == Failure(UnsupportedOr)
  {
    TestScopes();
    var tr := TestTransformer();
    IntOrStrUnsupported(tr.globalns, tr.localns);
    EvalBinOpSteps(tr.globalns, tr.localns, IntOrStr, BitOr, Name("Bar"));
    ToyFacilities(tr, NestedOrBar, Cls("int"), Cls("str"));
  }

  /** The native resolver fails on the inner `int | str`. */
  lemma NativeNestedOrBarFails()
    ensures Toy.evalType(ForwardRef(NestedOrBarText, true, false), Some(TestGlobals), None) == Failure(UnsupportedOr)
  {
    assert Parse(NestedOrBarText) == Success(NestedOrBar);
    IntOrStrUnsupported(TestGlobals, TestGlobals);
    EvalBinOpSteps(TestGlobals, TestGlobals, IntOrStr, BitOr, Name("Bar"));
    NativeOnText(NestedOrBarText, NestedOrBar);
  }

  /** The as-written rewrite path on `(int | str) | Bar` evaluates the
      unrewritten tree and fails. */
  lemma AsWrittenDirectFails()
    ensures EvalDirect(Toy, ForwardRef(NestedOrBarText, true, false), Some(TestGlobals), None, Hex) == Failure(UnsupportedOr)
  {
    AsWrittenBreaksInvariant();
    AsWrittenFinalEvalFails();
    assert Parse(NestedOrBarText) == Success(NestedOrBar);
    DirectOnText(NestedOrBarText, NestedOrBar);
  }

  /** As written, `eval_type_backport` on `(int | str) | Bar` fails with the
      very error it exists to repair, and the tree it evaluates breaks the
      "every `|` combines" invariant. */
  lemma AsWrittenLosesNestedRewrite()
    ensures Visit(Toy, TestTransformer(), NestedOrBar, AsWritten).Success?
            && !OrsCombine(Toy, TestTransformer(), Visit(Toy, TestTransformer(), NestedOrBar, AsWritten).value.returned)
    ensures EvalTypeBackport(Toy, ForwardRef(NestedOrBarText, true, false), Some(TestGlobals), None, true, Hex)
            == Failure(UnsupportedOr)
  {
    PrefixedTypeErrorQualifies(TypePair);
    AsWrittenBreaksInvariant();
    NativeNestedOrBarFails();
    AsWrittenDirectFails();
  }

  /** The spliced tree `Union[int, str] | Bar` evaluates through `Bar.__ror__`. */
  lemma SplicedFinalEval()
    ensures EvalType(Toy, TestTransformer(), BinOp(UnionOf(Alias, Name("int"), Name("str")), BitOr, Name("Bar")))
            == Success(Intended)
  {
    TestScopes();
    var tr := TestTransformer();
    var u := UnionOf(Alias, Name("int"), Name("str"));
    EvalUnionIntStr();
    ToyFacilities(tr, u, UnionT([Cls("int"), Cls("str")]), Cls("Bar"));
    ToyFacilities(tr, BinOp(u, BitOr, Name("Bar")), UnionT([Cls("int"), Cls("str")]), Cls("Bar"));
    NamesResolve(tr.globalns, tr.localns);
    EvalBinOpSteps(tr.globalns, tr.localns, u, BitOr, Name("Bar"));
  }

  /** The corrected rewrite path evaluates `Union[int, str] | Bar`. */
  lemma SplicedDirectEvaluatesSplicedTree()
    ensures EvalDirectSpliced(Toy, ForwardRef(NestedOrBarText, true, false), Some(TestGlobals), None, Hex)
            == EvalType(Toy, TestTransformer(), BinOp(UnionOf(Alias, Name("int"), Name("str")), BitOr, Name("Bar")))
  {
    var k := BinOp(UnionOf(Alias, Name("int"), Name("str")), BitOr, Name("Bar"));
    VisitNestedOrBar(Spliced);
    assert Visit(Toy, TestTransformer(), NestedOrBar, Spliced) == Success(Visited(k, k));
    assert Toy.parse(NestedOrBarText) == Success(NestedOrBar);
    assert NewUnionTransformer(Some(TestGlobals), None, Hex, Toy.typingModule) == TestTransformer();
  }

  /** With the children stored back, `(int | str) | Bar` resolves to
      `Dict[Union[int, str], Bar]`, as `Bar.__ror__` defines. */
  lemma SplicedResolvesNestedOr(tryDefault: bool)
    ensures EvalTypeBackportSpliced(Toy, ForwardRef(NestedOrBarText, true, false), Some(TestGlobals), None, tryDefault, Hex)
            == Success(Intended)
  {
    PrefixedTypeErrorQualifies(TypePair);
    NativeNestedOrBarFails();
    SplicedDirectEvaluatesSplicedTree();
    SplicedFinalEval();
  }
}
