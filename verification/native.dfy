/** The parts of the Python runtime the resolver calls but does not define:
    the parser, evaluation of a compiled tree, `typing._eval_type`, the
    infix-or operation on values, and the `typing` module object. They are
    fields of a `Runtime` record so that every statement about the resolver
    holds for whatever those facilities do. */
module Native {
  import opened Wrappers
  import opened Syntax

  /** A name environment: `dict[str, Any]`. */
  type Env<V> = map<string, V>

  /** The exception classes the model distinguishes. `TypeError` stands for
      every instance of `TypeError`, subclasses included, since the source
      catches them with `except TypeError`. */
  datatype ErrKind = TypeError | NameError | AttributeError | SyntaxError | OtherError(name: string)

  /** A raised exception: its class and `str(e)`. */
  datatype Err = Err(kind: ErrKind, msg: string)

  /** The first argument of `eval_type_backport`: a `typing.ForwardRef`
      (its text and its context flags) or any other value. */
  datatype Annotation<V> =
    | ForwardRef(arg: string, isArgument: bool, isClass: bool)
    | Plain(v: V)

  /** The runtime facilities, as total functions:
      - `parse`: `ast.parse(text, mode='eval')`, yielding the body of the `ast.Expression`;
      - `evalTree`: compile a tree and evaluate it against (globals, locals);
      - `evalType`: `typing._eval_type(value, globalns, localns)`, the native resolver;
      - `orOp`: `left | right` on two values;
      - `typingModule`: the `typing` module object. */
  datatype Runtime<!V> = Runtime(
    parse: string -> Result<Expr, Err>,
    evalTree: (Expr, Env<V>, Env<V>) -> Result<V, Err>,
    evalType: (Annotation<V>, Option<Env<V>>, Option<Env<V>>) -> Result<V, Err>,
    orOp: (V, V) -> Result<V, Err>,
    typingModule: V)
}
