# eval_type_backport, modelled in Dafny

`eval_type_backport` resolves a type annotation the way `typing._eval_type`
does. It also lets runtimes whose types cannot be combined with `|` accept
the PEP 604 union syntax `X | Y`. The native resolver is tried first. When a
forward reference fails with the "unsupported operand type(s) for |" `TypeError`,
its text is parsed. Each infix-or node that the walk reaches is replaced by
`typing.Union[X, Y]` when its operands cannot be combined. The walk does not
descend into the operands of other binary operators, so an infix-or below
one of them is never replaced. The typing module is reached through a
private alias `typing_<uuid hex>` added to a copy of the local scope. The
rewritten tree is then evaluated once.

The model is functional:

- `Syntax`: the expression trees of `ast.parse(..., mode='eval')` as a
  datatype, the shape of the `alias.Union[l, r]` replacement, and `Erase`,
  which undoes the replacement.
- `Native`: the facilities the code calls but does not define are fields of
  a `Runtime` record of total functions. These are `ast.parse`, evaluation of
  a compiled tree against two scopes, `typing._eval_type`, `|` between two
  values, and the `typing` module value. Every generic lemma holds for every
  runtime.
- `Classifier`: `is_unsupported_types_for_union_error`.
- `UnionRewrite`: the `UnionTransformer` constructor, its `eval_type`, and
  `NodeTransformer.visit` with `visit_BinOp`. It models which node is
  returned and what the original node object looks like after the in-place
  mutation done by `generic_visit`.
- `RewriteLemmas`: properties of the walk for every runtime.
- `Backport`: `_eval_direct` and the dispatcher `eval_type_backport`.
- `ToyRuntime` and `Scenarios`: a small concrete runtime, and the
  repository's test cases resolved on it. The runtime has `int`, `str`,
  `float`, a class `Foo` whose metaclass `|` raises `TypeError('foo')`, a
  class `Bar` whose metaclass defines `|` from both sides, and no `|`
  between plain types.
- `Findings`: the one defect found, and the corrected walk.

Exceptions are `Failure(Err(kind, message))` values. The uuid is a parameter
(`uuidHex`). A `ForwardRef` is an `Annotation` carrying its text and its two
context flags. Any other annotation value is `Plain`.

## Model

| member | source | states |
|---|---|---|
| Classifier.StartsWith | eval_type_backport/eval_type_backport.py:10 | `str.startswith`: true exactly when the prefix is no longer than the string and the string's first characters equal it |
| Classifier.IsUnsupportedTypesForUnionError | eval_type_backport/eval_type_backport.py:9-10 | an error is classified as the unsupported-`\|` error exactly when its message begins with `unsupported operand type(s) for \|: ` |
| Classifier.PrefixedTypeErrorQualifies | eval_type_backport/eval_type_backport.py:9-10 | every `TypeError` whose message starts with the prefix qualifies for the fallback, whatever operand types follow |
| Classifier.PrefixMustLeadTheMessage | eval_type_backport/eval_type_backport.py:9-10 | a message made of any non-empty leading text that does not itself start with the prefix, followed by the prefix, is not classified |
| Syntax.EraseUnionOf | eval_type_backport/eval_type_backport.py:56-64 | erasing the replacement `alias.Union[l, r]` gives back the infix-or of the erased operands |
| UnionRewrite.NormalizeScopes | eval_type_backport/eval_type_backport.py:19-29 | both scopes absent become one empty mapping; one absent takes the other's value; present scopes are kept as given |
| UnionRewrite.AugmentLocals | eval_type_backport/eval_type_backport.py:33 | the augmented locals have the caller's keys plus the alias; the alias is bound to the typing module; every other key keeps its value; the size grows by one when the alias is fresh |
| UnionRewrite.NewUnionTransformer | eval_type_backport/eval_type_backport.py:18-33 | the alias is `typing_` followed by the uuid hex; the globals are the caller's globals, else their locals, else empty; the locals hold the keys of the caller's locals (else globals, else nothing) plus the alias, the alias is bound to `typing`, and every other key keeps the caller's value |
| UnionRewrite.RewriteOr | eval_type_backport/eval_type_backport.py:48-65 | an operand evaluation error propagates; a `\|` failure other than the unsupported-operand `TypeError` propagates unchanged; the node is replaced by `alias.Union[l', r']` exactly when `\|` fails with that error; otherwise it is kept |
| UnionRewrite.Visit | eval_type_backport/eval_type_backport.py:44-67 | a binary operation other than `\|`, at any depth, is returned as it is with its children unvisited; any other non-`\|` node is returned as the same, mutated object; a walked `\|` node comes back either kept as an infix-or or as an `alias.Union[...]` replacement |
| RewriteLemmas.VisitAllElementwise | eval_type_backport/eval_type_backport.py:46-47 | the walk through a list of children succeeds exactly when every child's walk does, and yields what each child's walk returned, in order |
| RewriteLemmas.VisitAllFirstError | eval_type_backport/eval_type_backport.py:46-47 | a failing walk through a list of children reports the error of the first child whose walk fails |
| RewriteLemmas.VisitWithoutOr | eval_type_backport/eval_type_backport.py:44-67 | on every runtime, a tree with no `\|` that the walk reaches is returned exactly as parsed and not mutated |
| RewriteLemmas.VisitErasesBack | eval_type_backport/eval_type_backport.py:44-67 | when the parsed tree does not mention the alias, a successful visit only replaced infix-or nodes: erasing the replacements from the returned tree, or from the mutated original, gives the parsed tree back |
| RewriteLemmas.VisitUnchangedWhereOrSupported | eval_type_backport/eval_type_backport.py:44-67 | when no infix-or the walk reaches fails with the unsupported-operand error on its own operands, a successful visit returns the tree as parsed and mutates nothing |
| RewriteLemmas.SplicedVisitCombinesEveryOr | eval_type_backport/eval_type_backport.py:44-67 | when visited children are stored back, every infix-or reachable in the returned tree has operands that evaluate and combine with `\|` |
| Backport.EvalDirect | eval_type_backport/eval_type_backport.py:70-78 | a non-`ForwardRef` fails on the missing `__forward_arg__`; a parse error propagates; a failing walk's error is returned; after a successful walk the result is the evaluation of the rewritten tree in the transformer's scopes, failure included |
| Backport.EvalTypeBackport | eval_type_backport/eval_type_backport.py:81-101 | with `try_default` off the rewrite path is taken; a native success is returned; the result differs from the native one only when the native attempt failed with the unsupported-`\|` `TypeError` on a `ForwardRef`, and in that case the rewrite path's result is returned |
| Backport.RoutingKeepsAgreement | eval_type_backport/eval_type_backport.py:92-101 | when the rewrite path gives the native answer, the dispatcher gives it for both settings of `try_default` |
| Backport.DirectAgreesWhenWalkIsIdentity | eval_type_backport/eval_type_backport.py:70-78 | at a text and scopes where the native resolver parses and evaluates the text, and where that evaluation ignores the added alias: when the text does not parse, or the walk leaves the parsed tree as it was, the rewrite path gives the native answer |
| Backport.ForcedFallbackAgreesWithNative | eval_type_backport/eval_type_backport.py:81-101 | at such a text and scopes, when every infix-or the walk reaches is supported on its operands: whenever the text does not parse or the walk succeeds, both settings of `try_default` give the native answer, failures included |
| Backport.OrFreeAgreesWithNative | eval_type_backport/eval_type_backport.py:81-101 | at such a text and scopes, a default-flag forward reference with no infix-or that the walk reaches resolves to the native answer for both settings of `try_default` |
| Backport.OtherOperatorEvaluatedAsParsed | eval_type_backport/eval_type_backport.py:44-67 | a tree whose root is a binary operation other than `\|` is evaluated exactly as parsed, with nothing below it rewritten |
| Backport.OtherOrErrorSurfaces | eval_type_backport/eval_type_backport.py:50-54 | when the operands of a top-level `l \| r` evaluate but `\|` fails for another reason, the rewrite path reports exactly that error |
| Backport.ArgumentErrorSurfaces | eval_type_backport/eval_type_backport.py:70-78 | for a subscription `v[a0, ..., an]`, the rewrite path reports the error of the first argument whose walk fails |
| Scenarios.IntAgreesOnBothPaths | tests/test_eval_type_backport.py:62-63 | `'int'` meets the agreement hypotheses on the concrete runtime and resolves to `int` for both settings of `try_default` |
| Scenarios.IntOrStrResolvesToUnion | tests/test_eval_type_backport.py:62-64 | `'int \| str'` with globals `{Foo, Bar}` and no locals resolves to `Union[int, str]`, with and without `try_default` |
| Scenarios.OtherOrErrorSurfacesAsIs | tests/test_eval_type_backport.py:130-145 | `'Foo \| (int \| str)'` fails with `TypeError('foo')` on both paths, after the inner `\|` was rewritten |
| Scenarios.OtherOperatorStillFails | tests/test_eval_type_backport.py:114-127 | `'int + (str \| float)'` still fails with the unsupported-`\|` `TypeError` on both paths |
| Scenarios.RewriteKeepsIntPlus | eval_type_backport/eval_type_backport.py:44-67 | the walk returns `int + (str \| float)` untouched, and evaluating it fails on the inner `\|` |
| Findings.AsWrittenLosesNestedRewrite | eval_type_backport/eval_type_backport.py:44-67 | as written, the walk over `(int \| str) \| Bar` keeps an infix-or whose operands do not combine, and `eval_type_backport` fails with the unsupported-`\|` error |
| Findings.EvalDirectSpliced | eval_type_backport/eval_type_backport.py:70-78 | the corrected `_eval_direct`: errors of parsing and of the walk propagate; after a successful walk it evaluates a tree in which every reachable infix-or combines, and erasing the replacements gives back the parsed tree when it does not mention the alias |
| Findings.EvalTypeBackportSpliced | eval_type_backport/eval_type_backport.py:81-101 | the dispatcher with the same routing as `eval_type_backport`, falling back to the corrected rewrite path |
| Findings.SplicedResolvesNestedOr | eval_type_backport/eval_type_backport.py:44-67 | with the visited children stored back, `(int \| str) \| Bar` resolves to `Dict[Union[int, str], Bar]` through `Bar`'s reflected `\|`, with and without `try_default` |

## Left out

- `eval_type_backport/__init__.py` only re-exports the function and reads
  the package version, so it is not part of this model.
- Python's `ast.parse`, `compile` with evaluation, `typing._eval_type` and `|`
  on values are not modelled. They are parameters of the model (`Runtime`)
  and are not interpreted. Properties that need more of them are stated
  under hypotheses about the runtime at the one text and scopes concerned:
  `OrsSupported`, `ResolvesByParsingAt` and `IgnoresAliasAt`.
- `typing.Union` semantics are not modelled: flattening, deduplication, and
  turning `None` into `Optional`. Resolved values are compared only as
  values of the runtime. So the tests whose expected values depend on that
  normalisation (`int | str | float`, `int | None`) are not restated.
- `uuid.uuid4()`: the hex string is a parameter. Its freshness appears only
  as hypotheses: that the parsed tree does not mention the alias, or that
  evaluating it ignores the alias (`IgnoresAliasAt`).
- `ast.copy_location`, `ast.fix_missing_locations`, load contexts and the
  `ast.Index` wrapper are not modelled: they carry no meaning for the result.
- `ast.dump` is not modelled. Evaluation of a tree stands for
  `ForwardRef(ast.dump(node))` with its `__forward_code__` compiled from the
  node. The dump text becomes that reference's `__forward_arg__`, and
  `typing` keys its guard against recursive forward references on that
  text. So the rewrite path can unroll a self-referential alias one level
  further than the native resolver does. For example, with globals
  `{'Tree': List['Tree']}` and text `'Tree'`, the native resolver gives
  `List[ForwardRef('Tree')]` and the rewrite path gives
  `List[List[ForwardRef('Tree')]]`.
- Backport.ForcedFallbackAgreesWithNative: assumes `ResolvesByParsingAt` at
  the one text and scopes concerned. A self-referential alias such as the
  `Tree` one above, and a reference that depends on its own flags or on
  its module, do not meet that assumption, and the lemma says nothing
  about them.
- Backport.OrFreeAgreesWithNative: rests on the same assumption, with the
  same exclusions.
- The `ast.Expression` root that `parse(mode='eval')` produces and
  `eval_type` adds is implicit: a tree is its body.
- Scope identity is not modelled. When both scopes are absent the source
  binds the same mutable `{}` to both; the model has values, not objects.
- The `ForwardRef` context flags (`is_argument`, `is_class`) are carried
  but are only used by the native resolver. The rewrite path reads only the
  text, and `eval_type` evaluates through a fresh `ForwardRef` with the
  default flags, so a reference such as
  `ForwardRef('ClassVar[int | str]', is_argument=False, is_class=True)` is
  judged as an argument on that path. `Runtime.evalTree` stands for that
  default-flag evaluation.
- The agreement lemmas are stated only for forward references with the
  default flags, because the rewrite path drops the reference's own flags
  and can disagree with the native resolver on others.
- The `module` of a `ForwardRef` (`__forward_module__`, Python 3.9.7 and
  later) is not modelled. The native resolver evaluates in that module's
  globals. The rewrite path reads only `__forward_arg__` and uses the
  caller's globals. So `ForwardRef('X', module='m')`, with `X` defined only
  in `m`, resolves natively but fails with `NameError` when `try_default` is
  off.
- Exception chaining is not modelled. An error raised by the rewrite path
  inside the `except` block carries the native error as its `__context__`.
  `Failure(err)` holds only the new error.
- `ErrKind.TypeError` stands for any instance of `TypeError`, subclasses
  included, as `except TypeError` catches them. Subclasses are not told
  apart.
- Backport.EvalDirect: the message of its `AttributeError` for a value that
  is not a `ForwardRef` leaves out the `'<type>' object` that Python puts in
  front.
- Python-version-conditional behaviour and the `list[int]` subscript
  backport mentioned in the docstring are left out. Neither is implemented
  in this file.
- The `test_working_or` expression is not restated on the concrete runtime.
  Its kept-`|` behaviour is stated in general by `UnionRewrite.RewriteOr`.

## Findings

| source | as written | input that shows it | evidently intended | confidence | as-written member | corrected member |
|---|---|---|---|---|---|---|
| eval_type_backport/eval_type_backport.py:46-67 | `visit_BinOp` visits both children but never stores them back into `node.left` / `node.right`; when `left \| right` succeeds the original node is returned, so a nested `\|` child that was replaced by `Union[...]` is lost and the final evaluation fails on it | `'(int \| str) \| Bar'` on a runtime without type `\|`, where `Bar`'s metaclass defines `__ror__`: `Union[int, str] \| Bar` succeeds, the outer node is kept, and evaluating it raises the unsupported-`\|` `TypeError` on `int \| str` | the kept node holds the visited children, and the annotation resolves to `Dict[Union[int, str], Bar]` | not executed; medium | Findings.AsWrittenLosesNestedRewrite | Findings.EvalDirectSpliced |

`UnionRewrite.Mode` selects the behaviour. In `AsWritten` a kept node is
rebuilt from its children's mutated original objects. In `Spliced` it is
rebuilt from what their visits returned. `RewriteLemmas.SplicedVisitCombinesEveryOr`
proves the corrected walk sound for every runtime, and
`Findings.SplicedResolvesNestedOr` resolves the input above through
`Findings.EvalTypeBackportSpliced`, the dispatcher built on the corrected
walk. `Backport.EvalTypeBackport` keeps the behaviour as written.
