/**
  The values the parser hands to the evaluation engine: node patterns
  (definitions), node references inside expressions, and nodes to run
  (concrete invocations, also the memoization key).
*/
module Ast {

  /** The five operator trees the expression grammar produces. */
  datatype Op = Add | Sub | Mul | Div | Mod

  /**
    An expression: an integer literal, a variable name, an operator applied
    to two operands, or a node reference `[name arg*]` whose arguments are
    still unevaluated expressions.
  */
  datatype Expr =
    | Lit(value: int)
    | Var(name: string)
    | BinOp(op: Op, left: Expr, right: Expr)
    | Ref(name: string, args: seq<Expr>)

  /** A pattern parameter: a variable matches any integer, a literal only itself. */
  datatype Param = Variable(name: string) | Literal(value: int)

  /** A definition `name param* = expr`; definitions sharing a name are tried in order. */
  datatype Pattern = Pattern(name: string, params: seq<Param>, expr: Expr)

  /** A concrete invocation `[name int*]`. */
  datatype Invocation = Invocation(name: string, args: seq<int>)

  /** Every way the engine can abort a run. */
  datatype Error =
    | ArityMismatch(invocation: Invocation, pattern: Pattern)
    | NoMatchingPattern(invocation: Invocation)
    | CyclicDependency(invocation: Invocation)
    | UnresolvedReference(reference: Expr)
    | MissingResult(invocation: Invocation)
    | UnboundVariable(name: string)
    | DivisionByZero
}
