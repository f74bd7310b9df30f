/** The integer evaluator (`EvalTransformer`). */
module Evaluator {
  import opened Wrappers
  import opened Ast
  import opened Arithmetic

  /**
    The three tables an evaluator is built from: reference -> node to run,
    node to run -> result, and variable -> value.
  */
  datatype Env = Env(refsToDeps: map<Expr, Invocation>, results: map<Invocation, int>, bindings: map<string, int>)

  /** Does `err` name a genuine miss of a leaf lookup in `env`? */
  ghost predicate GenuineError(err: Error, env: Env)
  {
    match err
    case UnboundVariable(x) => x !in env.bindings
    case UnresolvedReference(r) => r.Ref? && r !in env.refsToDeps
    case MissingResult(n) => n in env.refsToDeps.Values && n !in env.results
    case _ => false
  }

  /** Some `//` or `%` node of `e` has a right operand whose value is 0. */
  ghost predicate ZeroDivisor(e: Expr, env: Env)
  {
    match e
    case BinOp(op, l, r) =>
      ((op.Div? || op.Mod?) && Value(r, env) == Some(0)) || ZeroDivisor(l, env) || ZeroDivisor(r, env)
    case _ => false
  }

  /**
    `err` is a failure that evaluating `e` can genuinely raise: a missed
    lookup, or DivisionByZero when `e` divides by an operand valued 0.
  */
  ghost predicate Explains(err: Error, e: Expr, env: Env)
  {
    GenuineError(err, env) || (err == DivisionByZero && ZeroDivisor(e, env))
  }

  /** The kinds of failure evaluation raises: a lookup miss or a zero divisor, never a match failure or a cycle. */
  predicate EvalFailure(err: Error)
  {
    err.UnboundVariable? || err.UnresolvedReference? || err.MissingResult? || err.DivisionByZero?
  }

  /**
    `err` is the miss raised by looking up the leaf `item` itself: its
    variable unbound, the reference absent from the reference map, or the
    reference's node absent from the result table.
  */
  ghost predicate LeafMiss(err: Error, item: Expr, env: Env)
  {
    match item
    case Var(x) => err == UnboundVariable(x) && x !in env.bindings
    case Ref(_, _) =>
      if item !in env.refsToDeps then err == UnresolvedReference(item)
      else err == MissingResult(env.refsToDeps[item]) && env.refsToDeps[item] !in env.results
    case _ => false
  }

  /**
    `err` is raised at a definite place in `e`: a leaf whose lookup misses
    with exactly that error, or a `//` or `%` node whose right operand is valued 0.
  */
  ghost predicate Located(err: Error, e: Expr, env: Env)
  {
    match e
    case BinOp(op, l, r) =>
      || Located(err, l, env)
      || Located(err, r, env)
      || (err == DivisionByZero && (op.Div? || op.Mod?) && Value(r, env) == Some(0))
    case _ => LeafMiss(err, e, env)
  }

  /** `_lookup` on a leaf: literal, reference (two tables), or variable. */
  function Lookup(item: Expr, env: Env): (r: Result<int, Error>)
    requires !item.BinOp?
    ensures r.Err? ==> GenuineError(r.error, env) && LeafMiss(r.error, item, env)
    ensures r.Ok? ==> Value(item, env) == Some(r.value)
  {
    match item
    case Lit(v) => Ok(v)
    case Ref(_, _) =>
      if item !in env.refsToDeps then Err(UnresolvedReference(item))
      else if env.refsToDeps[item] !in env.results then Err(MissingResult(env.refsToDeps[item]))
      else Ok(env.results[env.refsToDeps[item]])
    case Var(x) =>
      if x in env.bindings then Ok(env.bindings[x]) else Err(UnboundVariable(x))
  }

  /**
    `eval`. An operator tree is transformed bottom-up: its operator sub-trees
    are reduced first (left, then right), and only then does `_do_op` look
    up its leaf operands (left, then right). The order decides which error
    surfaces when several are possible; the zeros stand for "not a leaf".
  */
  function Eval(e: Expr, env: Env): (r: Result<int, Error>)
    ensures r.Err? ==> Explains(r.error, e, env)
    ensures r.Ok? ==> Value(e, env) == Some(r.value)
    ensures e.Lit? ==> r == Ok(e.value)
  {
    match e
    case BinOp(op, left, right) =>
      var lt :- if left.BinOp? then Eval(left, env) else Ok(0);
      var rt :- if right.BinOp? then Eval(right, env) else Ok(0);
      var a :- if left.BinOp? then Ok(lt) else Lookup(left, env);
      var b :- if right.BinOp? then Ok(rt) else Lookup(right, env);
      Apply(op, a, b)
    case _ => Lookup(e, env)
  }

  /**
    The order-free reading of an expression: its value when every leaf
    resolves and no divisor is zero, and nothing otherwise.
  */
  ghost function Value(e: Expr, env: Env): Option<int>
  {
    match e
    case Lit(v) => Some(v)
    case Var(x) => if x in env.bindings then Some(env.bindings[x]) else None
    case Ref(_, _) =>
      if e in env.refsToDeps && env.refsToDeps[e] in env.results
      then Some(env.results[env.refsToDeps[e]]) else None
    case BinOp(op, l, r) =>
      match (Value(l, env), Value(r, env))
      case (Some(a), Some(b)) => Apply(op, a, b).ToOption()
      case _ => None
  }

  /** The evaluation order only picks the error: success and value are order-free. */
  lemma {:induction false} EvalAgreesWithValue(e: Expr, env: Env)
    ensures Eval(e, env).ToOption() == Value(e, env)
  {
    match e
    case BinOp(op, l, r) =>
      EvalAgreesWithValue(l, env);
      EvalAgreesWithValue(r, env);
    case _ =>
  }

  /** Every evaluation error is raised at a definite leaf or zero divisor of the expression. */
  lemma {:induction false} EvalErrorLocated(e: Expr, env: Env)
    requires Eval(e, env).Err?
    ensures Located(Eval(e, env).error, e, env)
  {
    match e
    case BinOp(op, l, r) =>
      if l.BinOp? && Eval(l, env).Err? {
        EvalErrorLocated(l, env);
      } else if r.BinOp? && Eval(r, env).Err? {
        EvalErrorLocated(r, env);
      } else {
        // a failed leaf lookup is located by Lookup's contract; otherwise `_do_op` divided by 0
        EvalAgreesWithValue(r, env);
      }
    case _ =>
  }

  /** Is `small` contained in `big`, with the same values? */
  ghost predicate SubMap<K, V>(small: map<K, V>, big: map<K, V>)
  {
    forall k :: k in small ==> k in big && big[k] == small[k]
  }

  /** A successful evaluation keeps its value when the result table grows. */
  lemma {:induction false} EvalMonotone(e: Expr, m: map<Expr, Invocation>, res: map<Invocation, int>,
                                        res': map<Invocation, int>, b: map<string, int>)
    requires SubMap(res, res')
    requires Eval(e, Env(m, res, b)).Ok?
    ensures Eval(e, Env(m, res', b)) == Eval(e, Env(m, res, b))
  {
    match e
    case BinOp(op, l, r) =>
      if l.BinOp? { EvalMonotone(l, m, res, res', b); }
      if r.BinOp? { EvalMonotone(r, m, res, res', b); }
    case _ =>
  }
}
