/**
  What a completed result table means: every value is its pattern's
  expression read directly, each reference standing for the node named by
  its own arguments.
*/
module Denotation {
  import opened Wrappers
  import opened Ast
  import opened Matcher
  import opened Arithmetic
  import opened Evaluator
  import opened Scanner
  import opened Invariant

  /**
    The value of `e` under bindings `b`, with a reference `[f a1 .. ak]`
    read as the table entry for `f` applied to the values of a1 .. ak.
  */
  ghost function Denote(e: Expr, b: map<string, int>, res: map<Invocation, int>): Option<int>
  {
    match e
    case Lit(v) => Some(v)
    case Var(x) => if x in b then Some(b[x]) else None
    case Ref(f, args) =>
      (match EvalArgs(args, b)
       case Ok(vs) => if Invocation(f, vs) in res then Some(res[Invocation(f, vs)]) else None
       case Err(_) => None)
    case BinOp(op, l, r) =>
      match (Denote(l, b, res), Denote(r, b, res))
      case (Some(x), Some(y)) => Apply(op, x, y).ToOption()
      case _ => None
  }

  /** A reference table that names, for each scanned reference, the node its arguments denote. */
  lemma {:induction false} DenoteMatchesValue(e: Expr, m: map<Expr, Invocation>, res: map<Invocation, int>, b: map<string, int>)
    requires forall x :: x in Refs(e) ==> x in m && m[x].name == x.name && EvalArgs(x.args, b) == Ok(m[x].args)
    ensures Value(e, Env(m, res, b)) == Denote(e, b, res)
  {
    match e
    case BinOp(op, l, r) =>
      DenoteMatchesValue(l, m, res, b);
      DenoteMatchesValue(r, m, res, b);
    case Ref(f, args) =>
      assert e in Refs(e);
      assert m[e] == Invocation(f, EvalArgs(args, b).value);
    case _ =>
  }

  /**
    In a consistent table each entry is the denotation of the expression of
    the pattern its node matches, under that match's bindings.
  */
  lemma ConsistentDenotes(defs: seq<Pattern>, res: map<Invocation, int>, n: Invocation)
    requires Consistent(defs, res) && n in res
    ensures FindAndBind(defs, n).Ok?
    ensures Denote(FindAndBind(defs, n).value.0.expr, FindAndBind(defs, n).value.1, res) == Some(res[n])
  {
    assert Justified(defs, res, n);
    var (pat, b) := FindAndBind(defs, n).value;
    var (refs, deps) := ComputeDependencies(defs, n).value;
    var m := DepMap(refs, deps);
    ComputeDependenciesSound(defs, n);
    DepMapAgrees(refs, deps);
    forall x | x in Refs(pat.expr)
      ensures x in m && m[x].name == x.name && EvalArgs(x.args, b) == Ok(m[x].args)
    {
      var i :| 0 <= i < |refs| && refs[i] == x;
    }
    DenoteMatchesValue(pat.expr, m, res, b);
    EvalAgreesWithValue(pat.expr, Env(m, res, b));
  }
}
