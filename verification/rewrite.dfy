/** `UnionTransformer`: the scope set-up of its constructor, its
    `eval_type`, and the bottom-up walk that replaces each unsupported
    `l | r` by `alias.Union[l, r]`. */
module UnionRewrite {
  import opened Wrappers
  import opened Syntax
  import opened Native
  import opened Classifier

  /** The prefix of the private alias; the rest is a fresh uuid in hex. */
  const AliasPrefix: string := "typing_"

  /** The state a `UnionTransformer` is built with. */
  datatype UnionTransformer<!V> = UnionTransformer(typingName: string, globalns: Env<V>, localns: Env<V>)

  /** The handling of absent scopes: both absent gives one shared empty
      mapping, one absent takes the other's place, both present are kept. */
  function NormalizeScopes<V>(globalns: Option<Env<V>>, localns: Option<Env<V>>): (r: (Env<V>, Env<V>))
    ensures globalns.Some? ==> r.0 == globalns.value
    ensures localns.Some? ==> r.1 == localns.value
    ensures globalns.None? ==> r.0 == r.1
    ensures localns.None? ==> r.1 == r.0
    ensures globalns.None? && localns.None? ==> r.0 == map[]
  {
    match (globalns, localns)
    case (None, None) => (map[], map[])
    case (None, Some(l)) => (l, l)
    case (Some(g), None) => (g, g)
    case (Some(g), Some(l)) => (g, l)
  }

  /** `{**localns, name: typing}`: a new mapping with one more binding; the
      caller's mapping is a value and stays as it was. */
  function AugmentLocals<V>(localns: Env<V>, name: string, typing: V): (r: Env<V>)
    ensures r.Keys == localns.Keys + {name}
    ensures name in r && r[name] == typing
    ensures forall k :: k in localns && k != name ==> r[k] == localns[k]
    ensures name !in localns ==> |r| == |localns| + 1
  {
    localns[name := typing]
  }

  /** `UnionTransformer.__init__`, with the uuid drawn by the caller. The
      globals are the caller's globals, else their locals, else empty; the
      locals are the caller's locals (else globals, else empty) plus the
      alias bound to `typing`. */
  function NewUnionTransformer<V>(globalns: Option<Env<V>>, localns: Option<Env<V>>, uuidHex: string, typing: V)
    : (t: UnionTransformer<V>)
    ensures t.typingName == AliasPrefix + uuidHex
    ensures t.globalns == if globalns.Some? then globalns.value else if localns.Some? then localns.value else map[]
    ensures var base := if localns.Some? then localns.value else if globalns.Some? then globalns.value else map[];
      && t.localns.Keys == base.Keys + {t.typingName}
      && t.localns[t.typingName] == typing
      && forall k :: k in base && k != t.typingName ==> t.localns[k] == base[k]
  {
    var (g, l) := NormalizeScopes(globalns, localns);
    var name := AliasPrefix + uuidHex;
    UnionTransformer(name, g, AugmentLocals(l, name, typing))
  }

  /** `UnionTransformer.eval_type`: evaluate a (sub)tree against the
      transformer's globals and augmented locals. */
  function EvalType<V>(rt: Runtime<V>, tr: UnionTransformer<V>, e: Expr): (r: Result<V, Err>) {
    rt.evalTree(e, tr.globalns, tr.localns)
  }

  /** How a kept `l | r` node is rebuilt. `AsWritten` is the repository's
      behaviour: `visit_BinOp` never stores the visited children back, so
      the kept node holds the children's in-place states. `Spliced` stores
      the visited children, as `generic_visit` does for other nodes. */
  datatype Mode = AsWritten | Spliced

  /** The outcome of visiting one node: the node `visit` returns, and what
      the original node object looks like afterwards, since
      `generic_visit` mutates the nodes it walks through. */
  datatype Visited = Visited(returned: Expr, inPlace: Expr)

  /** The kept infix-or node after both operands were visited. */
  function KeptOr(mode: Mode, lv: Visited, rv: Visited): (k: Expr) {
    match mode
    case AsWritten => BinOp(lv.inPlace, BitOr, rv.inPlace)
    case Spliced => BinOp(lv.returned, BitOr, rv.returned)
  }

  /** The body of `visit_BinOp` for an infix-or whose operands were already
      visited: evaluate both, try `|`, and on the unsupported-operand
      `TypeError` (only) return `alias.Union[l, r]`. */
  function RewriteOr<V>(rt: Runtime<V>, tr: UnionTransformer<V>, lv: Visited, rv: Visited, mode: Mode)
    : (r: Result<Visited, Err>)
    ensures r.Success? ==> EvalType(rt, tr, lv.returned).Success? && EvalType(rt, tr, rv.returned).Success?
    ensures r.Success? ==>
      var combined := rt.orOp(EvalType(rt, tr, lv.returned).value, EvalType(rt, tr, rv.returned).value);
      && r.value.inPlace == KeptOr(mode, lv, rv)
      && (combined.Success? ==> r.value.returned == r.value.inPlace)
      && (combined.Failure? ==> IsUnionFallbackError(combined.error)
                                && r.value.returned == UnionOf(tr.typingName, lv.returned, rv.returned))
    ensures EvalType(rt, tr, lv.returned).Failure? ==> r == Failure(EvalType(rt, tr, lv.returned).error)
    ensures EvalType(rt, tr, lv.returned).Success? && EvalType(rt, tr, rv.returned).Failure? ==>
      r == Failure(EvalType(rt, tr, rv.returned).error)
    ensures r.Failure? && EvalType(rt, tr, lv.returned).Success? && EvalType(rt, tr, rv.returned).Success? ==>
      var combined := rt.orOp(EvalType(rt, tr, lv.returned).value, EvalType(rt, tr, rv.returned).value);
      combined.Failure? && !IsUnionFallbackError(combined.error) && r.error == combined.error
  {
    var lval :- EvalType(rt, tr, lv.returned);
    var rval :- EvalType(rt, tr, rv.returned);
    var kept := KeptOr(mode, lv, rv);
    match rt.orOp(lval, rval)
    case Success(_) => Success(Visited(kept, kept))
    case Failure(err) =>
      if IsUnionFallbackError(err) then Success(Visited(UnionOf(tr.typingName, lv.returned, rv.returned), kept))
      else Failure(err)
  }

  /** `NodeTransformer.visit`: `visit_BinOp` for binary operations,
      `generic_visit` (visit the children left to right, store what they
      return, return the node itself) for every other node. A binary
      operation other than `|` is returned as it is, children unvisited. */
  function Visit<V>(rt: Runtime<V>, tr: UnionTransformer<V>, e: Expr, mode: Mode): (r: Result<Visited, Err>)
    ensures e.BinOp? && e.op != BitOr ==> r == Success(Visited(e, e))
    ensures r.Success? && !e.BinOp? ==> r.value.returned == r.value.inPlace
    ensures r.Success? && e.BinOp? && e.op == BitOr ==>
      && r.value.inPlace.BinOp? && r.value.inPlace.op == BitOr
      && (r.value.returned == r.value.inPlace || IsUnionOf(tr.typingName, r.value.returned))
    decreases e
  {
    match e
    case Name(_) => Success(Visited(e, e))
    case Constant(_) => Success(Visited(e, e))
    case Attribute(v, a) =>
      var v' :- Visit(rt, tr, v, mode);
      var n := Attribute(v'.returned, a);
      Success(Visited(n, n))
    case Subscript(v, s) =>
      var v' :- Visit(rt, tr, v, mode);
      var s' :- Visit(rt, tr, s, mode);
      var n := Subscript(v'.returned, s'.returned);
      Success(Visited(n, n))
    case Tuple(es) =>
      var es' :- VisitAll(rt, tr, es, mode);
      var n := Tuple(es');
      Success(Visited(n, n))
    case Other(k, cs) =>
      var cs' :- VisitAll(rt, tr, cs, mode);
      var n := Other(k, cs');
      Success(Visited(n, n))
    case BinOp(l, op, r) =>
      if op != BitOr then Success(Visited(e, e))
      else
        var lv :- Visit(rt, tr, l, mode);
        var rv :- Visit(rt, tr, r, mode);
        RewriteOr(rt, tr, lv, rv, mode)
  }

  /** `generic_visit` on a list field: visit each element in order, stop at
      the first error, keep what each visit returned. */
  function VisitAll<V>(rt: Runtime<V>, tr: UnionTransformer<V>, es: seq<Expr>, mode: Mode): (r: Result<seq<Expr>, Err>)
    decreases es
  {
    if |es| == 0 then Success([])
    else
      var first :- Visit(rt, tr, es[0], mode);
      var rest :- VisitAll(rt, tr, es[1..], mode);
      Success([first.returned] + rest)
  }
}
