/** A small concrete runtime for worked examples: classes named by
    strings, the `typing.Union` form, and the two metaclasses of the
    repository's tests (`Foo`, whose `|` raises `TypeError('foo')`, and
    `Bar`, whose `|` and reflected `|` build `Dict[left, right]`). Plain
    classes do not support `|`, as before Python 3.10. */
module ToyRuntime {
  import opened Wrappers
  import opened Syntax
  import opened Native
  import opened Classifier
  import opened UnionRewrite

  datatype Ty =
    | Cls(name: string)
    | NoneType
    | Literal(text: string)
    | UnionT(args: seq<Ty>)
    | DictT(key: Ty, val: Ty)
    | TupleT(items: seq<Ty>)
    | TypingModule
    | UnionForm

  /** Names every evaluation can see, like Python's builtins. */
  const Builtins: map<string, Ty> := map["int" := Cls("int"), "str" := Cls("str"), "float" := Cls("float")]

  /** The caller's globals in the examples. */
  const TestGlobals: Env<Ty> := map["Foo" := Cls("Foo"), "Bar" := Cls("Bar")]

  /** The operand description ending CPython's operand-type messages. */
  const TypePair: string := "'type' and 'type'"

  /** The `TypeError` for `|` between two plain classes. */
  const UnsupportedOr: Err := Err(TypeError, UnsupportedOrPrefix + TypePair)

  /** The `TypeError` for another operator the operands lack. */
  function OperandError(op: Operator): (e: Err) {
    if op == BitOr then UnsupportedOr
    else Err(TypeError, "unsupported operand type(s) for " + Symbol(op) + ": " + TypePair)
  }

  /** How CPython's message spells an operator. */
  function Symbol(op: Operator): (sym: string) {
    match op
    case Add => "+" case Sub => "-" case Mult => "*" case MatMult => "@" case Div => "/"
    case Mod => "%" case Pow => "** or pow()" case LShift => "<<" case RShift => ">>"
    case BitOr => "|" case BitXor => "^" case BitAnd => "&" case FloorDiv => "//"
  }

  /** `left | right`: `Foo`'s metaclass raises, `Bar`'s builds a dict type,
      everything else is unsupported. */
  function Or(a: Ty, b: Ty): (r: Result<Ty, Err>)
    ensures r.Failure? && a != Cls("Foo") ==> IsUnionFallbackError(r.error)
  {
    PrefixedTypeErrorQualifies(TypePair);
    if a == Cls("Foo") then Failure(Err(TypeError, "foo"))
    else if a == Cls("Bar") || b == Cls("Bar") then Success(DictT(a, b))
    else Failure(UnsupportedOr)
  }

  /** Evaluation of a tree: names from locals, then globals, then builtins. */
  function Eval(e: Expr, g: Env<Ty>, l: Env<Ty>): (r: Result<Ty, Err>)
    decreases e
  {
    match e
    case Name(n) =>
      if n in l then Success(l[n])
      else if n in g then Success(g[n])
      else if n in Builtins then Success(Builtins[n])
      else Failure(Err(NameError, "name '" + n + "' is not defined"))
    case Constant(c) => if c == "None" then Success(NoneType) else Success(Literal(c))
    case Attribute(v, a) =>
      var x :- Eval(v, g, l);
      if x == TypingModule && a == UnionAttr then Success(UnionForm)
      else Failure(Err(AttributeError, "object has no attribute '" + a + "'"))
    case Subscript(v, s) =>
      var x :- Eval(v, g, l);
      var y :- Eval(s, g, l);
      if x == UnionForm then Success(UnionT(if y.TupleT? then y.items else [y]))
      else Failure(Err(TypeError, "object is not subscriptable"))
    case Tuple(es) =>
      var xs :- EvalAll(es, g, l);
      Success(TupleT(xs))
    case BinOp(a, op, b) =>
      var x :- Eval(a, g, l);
      var y :- Eval(b, g, l);
      if op == BitOr then Or(x, y) else Failure(OperandError(op))
    case Other(k, _) => Failure(Err(OtherError("NotImplementedError"), k))
  }

  function EvalAll(es: seq<Expr>, g: Env<Ty>, l: Env<Ty>): (r: Result<seq<Ty>, Err>)
    decreases es
  {
    if |es| == 0 then Success([])
    else
      var x :- Eval(es[0], g, l);
      var xs :- EvalAll(es[1..], g, l);
      Success([x] + xs)
  }

  const IntOrStr: Expr := BinOp(Name("int"), BitOr, Name("str"))

  /** The parser, for the texts the examples use. */
  function Parse(s: string): (r: Result<Expr, Err>) {
    if s == "int" then Success(Name("int"))
    else if s == "int | str" then Success(IntOrStr)
    else if s == "Foo | (int | str)" then Success(BinOp(Name("Foo"), BitOr, IntOrStr))
    else if s == "int + (str | float)" then Success(BinOp(Name("int"), Add, BinOp(Name("str"), BitOr, Name("float"))))
    else if s == "(int | str) | Bar" then Success(BinOp(IntOrStr, BitOr, Name("Bar")))
    else Failure(Err(SyntaxError, "invalid syntax"))
  }

  /** `typing._eval_type`: a forward reference is parsed and evaluated
      against the normalised scopes; any other value is returned as is. */
  function EvalTypeNative(value: Annotation<Ty>, globalns: Option<Env<Ty>>, localns: Option<Env<Ty>>): (r: Result<Ty, Err>) {
    match value
    case Plain(v) => Success(v)
    case ForwardRef(s, _, _) =>
      var tree :- Parse(s);
      var (g, l) := NormalizeScopes(globalns, localns);
      Eval(tree, g, l)
  }

  /** Evaluating `alias.Union[a, b]` where the alias is bound to `typing`
      gives the union of the two operand values. */
  lemma EvalUnionOf(g: Env<Ty>, l: Env<Ty>, alias: string, a: Expr, b: Expr, x: Ty, y: Ty)
    requires alias in l && l[alias] == TypingModule
    requires Eval(a, g, l) == Success(x) && Eval(b, g, l) == Success(y)
    ensures Eval(UnionOf(alias, a, b), g, l) == Success(UnionT([x, y]))
  {
    assert Eval(Attribute(Name(alias), UnionAttr), g, l) == Success(UnionForm);
    assert [b][1..] == [] && [b][0] == b;
    assert EvalAll([], g, l) == Success([]);
    assert [y] + [] == [y];
    assert EvalAll([b], g, l) == Success([y]);
    assert [a, b][1..] == [b] && [a, b][0] == a;
    assert [x] + [y] == [x, y];
  }

  /** A name bound nowhere else is looked up in the builtins. */
  lemma EvalBuiltin(g: Env<Ty>, l: Env<Ty>, n: string)
    requires n !in l && n !in g && n in Builtins
    ensures Eval(Name(n), g, l) == Success(Builtins[n])
  {
  }

  /** A binary operation evaluates its left operand, then its right one,
      then applies the operator. */
  lemma EvalBinOpSteps(g: Env<Ty>, l: Env<Ty>, a: Expr, op: Operator, b: Expr)
    ensures Eval(a, g, l).Failure? ==> Eval(BinOp(a, op, b), g, l) == Failure(Eval(a, g, l).error)
    ensures Eval(a, g, l).Success? && Eval(b, g, l).Failure? ==> Eval(BinOp(a, op, b), g, l) == Failure(Eval(b, g, l).error)
    ensures Eval(a, g, l).Success? && Eval(b, g, l).Success? && op == BitOr ==>
      Eval(BinOp(a, op, b), g, l) == Or(Eval(a, g, l).value, Eval(b, g, l).value)
  {
  }

  const Toy: Runtime<Ty> := Runtime(Parse, Eval, EvalTypeNative, Or, TypingModule)

  /** The concrete runtime's facilities are the functions above. */
  lemma ToyFacilities(tr: UnionTransformer<Ty>, e: Expr, a: Ty, b: Ty)
    ensures EvalType(Toy, tr, e) == Eval(e, tr.globalns, tr.localns)
    ensures Toy.orOp(a, b) == Or(a, b)
  {
  }
}
