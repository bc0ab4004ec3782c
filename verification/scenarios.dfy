/** Worked resolutions on the concrete runtime, after the repository's
    tests: the caller passes the globals `{Foo, Bar}` and no locals. */
module Scenarios {
  import opened Wrappers
  import opened Syntax
  import opened Native
  import opened Classifier
  import opened UnionRewrite
  import opened RewriteLemmas
  import opened Backport
  import opened ToyRuntime

  /** The uuid drawn for the examples. */
  const Hex: string := "0f3c"
  const Alias: string := "typing_0f3c"

  function TestTransformer(): (tr: UnionTransformer<Ty>) {
    NewUnionTransformer(Some(TestGlobals), None, Hex, TypingModule)
  }

  /** The transformer of the examples: globals kept, locals are a copy of
      the globals plus the alias. */
  lemma TestScopes()
    ensures NormalizeScopes(Some(TestGlobals), None) == (TestGlobals, TestGlobals)
    ensures var tr := TestTransformer();
      && tr.typingName == Alias
      && tr.globalns == TestGlobals
      && tr.localns.Keys == {"Foo", "Bar", Alias}
      && tr.localns[Alias] == TypingModule
      && tr.localns["Foo"] == Cls("Foo")
      && tr.localns["Bar"] == Cls("Bar")
  {
  }

  /** The two scope pairs the examples evaluate in: the native one and the
      transformer's. */
  predicate InTestScopes(g: Env<Ty>, l: Env<Ty>) {
    g == TestGlobals && (l == TestGlobals || l == TestTransformer().localns)
  }

  /** The examples' names resolve in both scope pairs. */
  lemma NamesResolve(g: Env<Ty>, l: Env<Ty>)
    requires InTestScopes(g, l)
    ensures Eval(Name("int"), g, l) == Success(Cls("int"))
    ensures Eval(Name("str"), g, l) == Success(Cls("str"))
    ensures Eval(Name("float"), g, l) == Success(Cls("float"))
    ensures Eval(Name("Foo"), g, l) == Success(Cls("Foo"))
    ensures Eval(Name("Bar"), g, l) == Success(Cls("Bar"))
  {
    TestScopes();
    assert "int" !in l && "str" !in l && "float" !in l;
    EvalBuiltin(g, l, "int");
    EvalBuiltin(g, l, "str");
    EvalBuiltin(g, l, "float");
  }

  /** `int | str` raises the unsupported-`|` error in both scope pairs. */
  lemma IntOrStrUnsupported(g: Env<Ty>, l: Env<Ty>)
    requires InTestScopes(g, l)
    ensures Eval(IntOrStr, g, l) == Failure(UnsupportedOr)
  {
    NamesResolve(g, l);
    EvalBinOpSteps(g, l, Name("int"), BitOr, Name("str"));
  }

  /** The concrete native resolver parses a default-flag forward reference
      and evaluates it in the normalised scopes, for every text and scopes. */
  lemma ToyResolvesByParsing(s: string, globalns: Option<Env<Ty>>, localns: Option<Env<Ty>>)
    ensures ResolvesByParsingAt(Toy, s, globalns, localns)
  {
  }

  /** `'int'` meets the agreement hypotheses, so both paths and both
      settings of `try_default` resolve it to `int`. */
  lemma IntAgreesOnBothPaths(tryDefault: bool)
    ensures EvalTypeBackport(Toy, ForwardRef("int", true, false), Some(TestGlobals), None, tryDefault, Hex)
            == Success(Cls("int"))
  {
    var tr := TestTransformer();
    TestScopes();
    assert Parse("int") == Success(Name("int"));
    ToyResolvesByParsing("int", Some(TestGlobals), None);
    NamesResolve(TestGlobals, TestGlobals);
    NamesResolve(tr.globalns, tr.localns);
    assert tr.localns == AugmentLocals(TestGlobals, Alias, TypingModule);
    assert IgnoresAliasAt(Toy, "int", Some(TestGlobals), None, Hex);
    OrFreeAgreesWithNative(Toy, "int", Some(TestGlobals), None, Hex);
    NativeOnText("int", Name("int"));
  }

  /** `int | str` is not supported, so it is rewritten to `alias.Union[int, str]`. */
  lemma RewriteIntStr(mode: Mode)
    ensures RewriteOr(Toy, TestTransformer(), Visited(Name("int"), Name("int")), Visited(Name("str"), Name("str")), mode)
            == Success(Visited(UnionOf(Alias, Name("int"), Name("str")), IntOrStr))
  {
    var tr := TestTransformer();
    TestScopes();
    PrefixedTypeErrorQualifies(TypePair);
    NamesResolve(tr.globalns, tr.localns);
    ToyFacilities(tr, Name("int"), Cls("int"), Cls("str"));
    ToyFacilities(tr, Name("str"), Cls("int"), Cls("str"));
  }

  /** Visiting `int | str` replaces it by `alias.Union[int, str]`; the node
      object itself is left as it was. */
  lemma VisitIntOrStr(mode: Mode)
    ensures Visit(Toy, TestTransformer(), IntOrStr, mode)
            == Success(Visited(UnionOf(Alias, Name("int"), Name("str")), IntOrStr))
  {
    VisitOrOfVisited(Toy, TestTransformer(), Name("int"), Name("str"),
                     Visited(Name("int"), Name("int")), Visited(Name("str"), Name("str")), mode);
    RewriteIntStr(mode);
  }

  /** The rewritten `int | str` evaluates to `Union[int, str]`. */
  lemma EvalUnionIntStr()
    ensures EvalType(Toy, TestTransformer(), UnionOf(Alias, Name("int"), Name("str"))) == Success(UnionT([Cls("int"), Cls("str")]))
  {
    var tr := TestTransformer();
    TestScopes();
    NamesResolve(tr.globalns, tr.localns);
    EvalUnionOf(tr.globalns, tr.localns, Alias, Name("int"), Name("str"), Cls("int"), Cls("str"));
    ToyFacilities(tr, UnionOf(Alias, Name("int"), Name("str")), Cls("int"), Cls("str"));
  }

  /** The native resolver on a forward reference of the examples. */
  lemma NativeOnText(s: string, tree: Expr)
    requires Parse(s) == Success(tree)
    ensures Toy.evalType(ForwardRef(s, true, false), Some(TestGlobals), None) == Eval(tree, TestGlobals, TestGlobals)
  {
    TestScopes();
  }

  /** The rewrite path on a forward reference of the examples. */
  lemma DirectOnText(s: string, tree: Expr)
    requires Parse(s) == Success(tree)
    ensures Visit(Toy, TestTransformer(), tree, AsWritten).Failure? ==>
      EvalDirect(Toy, ForwardRef(s, true, false), Some(TestGlobals), None, Hex) == Failure(Visit(Toy, TestTransformer(), tree, AsWritten).error)
    ensures Visit(Toy, TestTransformer(), tree, AsWritten).Success? ==>
      EvalDirect(Toy, ForwardRef(s, true, false), Some(TestGlobals), None, Hex)
      == EvalType(Toy, TestTransformer(), Visit(Toy, TestTransformer(), tree, AsWritten).value.returned)
  {
  }

  /** `int | str` resolves to `Union[int, str]` on either path: the native
      attempt fails on `|` and the rewrite takes over. */
  lemma IntOrStrResolvesToUnion(tryDefault: bool)
    ensures EvalTypeBackport(Toy, ForwardRef("int | str", true, false), Some(TestGlobals), None, tryDefault, Hex)
            == Success(UnionT([Cls("int"), Cls("str")]))
  {
    var s := "int | str";
    assert Parse(s) == Success(IntOrStr);
    IntOrStrUnsupported(TestGlobals, TestGlobals);
    NativeOnText(s, IntOrStr);
    PrefixedTypeErrorQualifies(TypePair);
    VisitIntOrStr(AsWritten);
    DirectOnText(s, IntOrStr);
    EvalUnionIntStr();
  }

  /** Inside `Foo | (int | str)`, `Foo | Union[int, str]` raises `'foo'`. */
  lemma FooOrUnionFails()
    ensures Visit(Toy, TestTransformer(), BinOp(Name("Foo"), BitOr, IntOrStr), AsWritten) == Failure(Err(TypeError, "foo"))
  {
    var tr := TestTransformer();
    var lv := Visited(Name("Foo"), Name("Foo"));
    var rv := Visited(UnionOf(Alias, Name("int"), Name("str")), IntOrStr);
    TestScopes();
    VisitIntOrStr(AsWritten);
    VisitOrOfVisited(Toy, tr, Name("Foo"), IntOrStr, lv, rv, AsWritten);
    EvalUnionIntStr();
    NamesResolve(tr.globalns, tr.localns);
    ToyFacilities(tr, Name("Foo"), Cls("Foo"), UnionT([Cls("int"), Cls("str")]));
  }

  /** `Foo | (int | str)`: the inner `|` is rewritten, then `Foo`'s own
      `TypeError('foo')` is reported unchanged on either path. */
  lemma OtherOrErrorSurfacesAsIs(tryDefault: bool)
    ensures EvalTypeBackport(Toy, ForwardRef("Foo | (int | str)", true, false), Some(TestGlobals), None, tryDefault, Hex)
            == Failure(Err(TypeError, "foo"))
  {
    var s := "Foo | (int | str)";
    var tree := BinOp(Name("Foo"), BitOr, IntOrStr);
    assert Parse(s) == Success(tree);
    NamesResolve(TestGlobals, TestGlobals);
    IntOrStrUnsupported(TestGlobals, TestGlobals);
    EvalBinOpSteps(TestGlobals, TestGlobals, Name("Foo"), BitOr, IntOrStr);
    NativeOnText(s, tree);
    PrefixedTypeErrorQualifies(TypePair);
    FooOrUnionFails();
    DirectOnText(s, tree);
  }

  const StrOrFloat: Expr := BinOp(Name("str"), BitOr, Name("float"))
  const IntPlusStrOrFloat: Expr := BinOp(Name("int"), Add, StrOrFloat)

  /** `int + (str | float)` fails on its `|` in both scope pairs. */
  lemma IntPlusFails(g: Env<Ty>, l: Env<Ty>)
    requires InTestScopes(g, l)
    ensures Eval(IntPlusStrOrFloat, g, l) == Failure(UnsupportedOr)
  {
    NamesResolve(g, l);
    EvalBinOpSteps(g, l, Name("str"), BitOr, Name("float"));
    EvalBinOpSteps(g, l, Name("int"), Add, StrOrFloat);
  }

  /** The rewrite leaves `int + (str | float)` as parsed, and it fails on `|`. */
  lemma RewriteKeepsIntPlus()
    ensures Visit(Toy, TestTransformer(), IntPlusStrOrFloat, AsWritten) == Success(Visited(IntPlusStrOrFloat, IntPlusStrOrFloat))
    ensures EvalType(Toy, TestTransformer(), IntPlusStrOrFloat) == Failure(UnsupportedOr)
  {
    var tr := TestTransformer();
    TestScopes();
    IntPlusFails(tr.globalns, tr.localns);
    ToyFacilities(tr, IntPlusStrOrFloat, Cls("int"), Cls("str"));
  }

  /** `int + (str | float)`: the `|` below `+` is never visited, so the
      evaluation fails on it as the native path did. */
  lemma OtherOperatorStillFails(tryDefault: bool)
    ensures EvalTypeBackport(Toy, ForwardRef("int + (str | float)", true, false), Some(TestGlobals), None, tryDefault, Hex)
            == Failure(UnsupportedOr)
  {
    var s := "int + (str | float)";
    assert Parse(s) == Success(IntPlusStrOrFloat);
    IntPlusFails(TestGlobals, TestGlobals);
    NativeOnText(s, IntPlusStrOrFloat);
    PrefixedTypeErrorQualifies(TypePair);
    RewriteKeepsIntPlus();
    DirectOnText(s, IntPlusStrOrFloat);
  }
}
