/** The shallow dependency scan (`find_references_no_nesting`, `compute_dependencies`). */
module Scanner {
  import opened Wrappers
  import opened Ast
  import opened Matcher
  import opened Evaluator

  /** `x` is `e` itself or is reached from `e` through operator operands only. */
  ghost predicate Shallow(x: Expr, e: Expr)
  {
    x == e || (e.BinOp? && (Shallow(x, e.left) || Shallow(x, e.right)))
  }

  /**
    `find_references_no_nesting`: the references of `e`, left to right and
    depth first, without looking inside a reference's own arguments.
  */
  function Refs(e: Expr): (rs: seq<Expr>)
    ensures forall i :: 0 <= i < |rs| ==> rs[i].Ref? && Shallow(rs[i], e)
  {
    match e
    case Ref(_, _) => [e]
    case BinOp(_, l, r) => Refs(l) + Refs(r)
    case _ => []
  }

  /** The scan finds every reference not nested inside another reference. */
  lemma {:induction false} RefsComplete(x: Expr, e: Expr)
    requires x.Ref? && Shallow(x, e)
    ensures x in Refs(e)
  {
    if x != e {
      if Shallow(x, e.left) {
        RefsComplete(x, e.left);
      } else {
        RefsComplete(x, e.right);
      }
    }
  }

  /**
    The operands of the operator tree flattened left to right: every literal,
    variable and reference that is not under another reference, in order and
    with repetitions.
  */
  function Leaves(e: Expr): (ls: seq<Expr>)
    ensures |ls| >= 1
    ensures forall i :: 0 <= i < |ls| ==> !ls[i].BinOp? && Shallow(ls[i], e)
  {
    match e
    case BinOp(_, l, r) => Leaves(l) + Leaves(r)
    case _ => [e]
  }

  /** The references of a sequence, kept in their order and with their repetitions. */
  function KeepRefs(xs: seq<Expr>): (rs: seq<Expr>)
    ensures |rs| <= |xs|
    ensures forall x :: x in rs <==> x in xs && x.Ref?
  {
    if xs == [] then []
    else (if xs[0].Ref? then [xs[0]] else []) + KeepRefs(xs[1..])
  }

  lemma {:induction false} KeepRefsAppend(xs: seq<Expr>, ys: seq<Expr>)
    ensures KeepRefs(xs + ys) == KeepRefs(xs) + KeepRefs(ys)
    decreases |xs|
  {
    if xs == [] {
      assert xs + ys == ys;
    } else {
      assert (xs + ys)[0] == xs[0] && (xs + ys)[1..] == xs[1..] + ys;
      KeepRefsAppend(xs[1..], ys);
    }
  }

  /**
    The scan is the left-to-right filter of the flattened operands: it keeps
    exactly the references, in operand order, as many times as they occur.
  */
  lemma {:induction false} RefsAreOrderedLeaves(e: Expr)
    ensures Refs(e) == KeepRefs(Leaves(e))
  {
    match e
    case BinOp(_, l, r) =>
      RefsAreOrderedLeaves(l);
      RefsAreOrderedLeaves(r);
      KeepRefsAppend(Leaves(l), Leaves(r));
    case _ =>
      assert KeepRefs([e]) == (if e.Ref? then [e] else []) + KeepRefs([]);
  }

  /** A successful evaluation has resolved every reference the scan finds. */
  lemma {:induction false} EvalResolvesRefs(e: Expr, env: Env)
    requires Eval(e, env).Ok?
    ensures forall x :: x in Refs(e) ==> x in env.refsToDeps && env.refsToDeps[x] in env.results
  {
    match e
    case BinOp(op, l, r) =>
      if l.BinOp? { EvalResolvesRefs(l, env); }
      if r.BinOp? { EvalResolvesRefs(r, env); }
    case _ =>
  }

  /** Without references, only the bindings matter to an evaluation. */
  lemma {:induction false} EvalWithoutRefs(e: Expr, env: Env, env': Env)
    requires Refs(e) == [] && env.bindings == env'.bindings
    ensures Eval(e, env) == Eval(e, env')
  {
    match e
    case BinOp(op, l, r) =>
      assert Refs(l) == [] && Refs(r) == [];
      EvalWithoutRefs(l, env, env');
      EvalWithoutRefs(r, env, env');
    case _ =>
  }

  /** The evaluator `compute_dependencies` builds: bindings, empty tables. */
  function BindingsOnly(b: map<string, int>): Env
  {
    Env(map[], map[], b)
  }

  /** A reference anywhere in an argument makes its evaluation fail. */
  lemma NestedReferenceFails(e: Expr, b: map<string, int>)
    requires Refs(e) != []
    ensures Eval(e, BindingsOnly(b)).Err?
  {
    if Eval(e, BindingsOnly(b)).Ok? {
      EvalResolvesRefs(e, BindingsOnly(b));
    }
  }

  /** The argument tuple of one reference, evaluated left to right under the bindings. */
  function EvalArgs(args: seq<Expr>, b: map<string, int>): (r: Result<seq<int>, Error>)
    ensures r.Ok? <==> forall i :: 0 <= i < |args| ==> Eval(args[i], BindingsOnly(b)).Ok?
    ensures r.Err? ==> SomeExplains(r.error, args, BindingsOnly(b)) && EvalFailure(r.error)
    ensures r.Ok? ==> (|r.value| == |args|
      && forall i :: 0 <= i < |args| ==> Eval(args[i], BindingsOnly(b)) == Ok(r.value[i]))
  {
    if args == [] then Ok([])
    else
      var tail := args[1..];
      assert forall i :: 0 <= i < |tail| ==> tail[i] == args[i + 1];
      var v :- Eval(args[0], BindingsOnly(b));
      var vs :- EvalArgs(tail, b);
      Ok([v] + vs)
  }

  /** Some expression of `es` explains `err`. */
  ghost predicate SomeExplains(err: Error, es: seq<Expr>, env: Env)
    decreases |es|
  {
    es != [] && (Explains(err, es[0], env) || SomeExplains(err, es[1..], env))
  }

  /** Some argument of some reference of `refs` explains `err`. */
  ghost predicate SomeArgExplains(err: Error, refs: seq<Expr>, env: Env)
    decreases |refs|
  {
    refs != [] && ((refs[0].Ref? && SomeExplains(err, refs[0].args, env)) || SomeArgExplains(err, refs[1..], env))
  }

  /** The loop of `compute_dependencies`: one node to run per reference, in order. */
  function EvalRefs(refs: seq<Expr>, b: map<string, int>): (r: Result<seq<Invocation>, Error>)
    requires forall i :: 0 <= i < |refs| ==> refs[i].Ref?
    ensures r.Ok? <==> forall i :: 0 <= i < |refs| ==> EvalArgs(refs[i].args, b).Ok?
    ensures r.Err? ==> SomeArgExplains(r.error, refs, BindingsOnly(b)) && EvalFailure(r.error)
    ensures r.Ok? ==> (|r.value| == |refs|
      && forall i :: 0 <= i < |refs| ==>
           r.value[i].name == refs[i].name && EvalArgs(refs[i].args, b) == Ok(r.value[i].args))
  {
    if refs == [] then Ok([])
    else
      var tail := refs[1..];
      assert forall i :: 0 <= i < |tail| ==> tail[i] == refs[i + 1];
      var args :- EvalArgs(refs[0].args, b);
      var rest :- EvalRefs(tail, b);
      Ok([Invocation(refs[0].name, args)] + rest)
  }

  /**
    `compute_dependencies`: resolve `inv`, scan its expression, and turn each
    reference into a node to run by evaluating its arguments under the
    bindings alone.
  */
  function ComputeDependencies(defs: seq<Pattern>, inv: Invocation): (r: Result<(seq<Expr>, seq<Invocation>), Error>)
    ensures FindAndBind(defs, inv).Err? ==> r == Err(FindAndBind(defs, inv).error)
    ensures r.Err? && FindAndBind(defs, inv).Ok? ==> EvalFailure(r.error)
    ensures r.Err? && FindAndBind(defs, inv).Ok? ==>
      SomeArgExplains(r.error, Refs(FindAndBind(defs, inv).value.0.expr), BindingsOnly(FindAndBind(defs, inv).value.1))
    ensures r.Ok? ==>
      var (refs, deps) := r.value;
      var (pat, b) := FindAndBind(defs, inv).value;
      && FindAndBind(defs, inv).Ok?
      && refs == Refs(pat.expr)
      && |deps| == |refs|
  {
    var (pat, b) :- FindAndBind(defs, inv);
    var refs := Refs(pat.expr);
    var deps :- EvalRefs(refs, b);
    Ok((refs, deps))
  }

  /**
    A failed argument tuple reports the error of its first failing argument,
    raised at a definite leaf or zero divisor of that argument.
  */
  lemma {:induction false} EvalArgsFirstError(args: seq<Expr>, b: map<string, int>)
    requires EvalArgs(args, b).Err?
    ensures exists i :: (0 <= i < |args|
      && (forall j :: 0 <= j < i ==> Eval(args[j], BindingsOnly(b)).Ok?)
      && Eval(args[i], BindingsOnly(b)) == Err(EvalArgs(args, b).error)
      && Located(EvalArgs(args, b).error, args[i], BindingsOnly(b)))
    decreases |args|
  {
    var env := BindingsOnly(b);
    if Eval(args[0], env).Err? {
      EvalErrorLocated(args[0], env);
      assert Eval(args[0], env) == Err(EvalArgs(args, b).error);
    } else {
      var tail := args[1..];
      EvalArgsFirstError(tail, b);
      var i :| 0 <= i < |tail|
        && (forall j :: 0 <= j < i ==> Eval(tail[j], env).Ok?)
        && Eval(tail[i], env) == Err(EvalArgs(tail, b).error)
        && Located(EvalArgs(tail, b).error, tail[i], env);
      assert forall j :: 1 <= j < i + 1 ==> args[j] == tail[j - 1];
      assert args[i + 1] == tail[i];
    }
  }

  /** A failed scan reports the error of the first reference whose argument tuple fails. */
  lemma {:induction false} EvalRefsFirstError(refs: seq<Expr>, b: map<string, int>)
    requires forall i :: 0 <= i < |refs| ==> refs[i].Ref?
    requires EvalRefs(refs, b).Err?
    ensures exists i :: (0 <= i < |refs|
      && (forall j :: 0 <= j < i ==> EvalArgs(refs[j].args, b).Ok?)
      && EvalArgs(refs[i].args, b) == Err(EvalRefs(refs, b).error))
    decreases |refs|
  {
    if EvalArgs(refs[0].args, b).Err? {
      assert EvalArgs(refs[0].args, b) == Err(EvalRefs(refs, b).error);
    } else {
      var tail := refs[1..];
      assert forall i :: 0 <= i < |tail| ==> tail[i] == refs[i + 1];
      assert EvalRefs(refs, b).error == EvalRefs(tail, b).error && EvalRefs(tail, b).Err?;
      EvalRefsFirstError(tail, b);
      var i :| 0 <= i < |tail|
        && (forall j :: 0 <= j < i ==> EvalArgs(tail[j].args, b).Ok?)
        && EvalArgs(tail[i].args, b) == Err(EvalRefs(tail, b).error);
      assert forall j :: 1 <= j < i + 1 ==> refs[j] == tail[j - 1];
      assert refs[i + 1] == tail[i];
    }
  }

  /** A failed scan's error is raised at a definite place in some argument of some reference. */
  lemma EvalRefsErrorLocated(refs: seq<Expr>, b: map<string, int>)
    requires forall i :: 0 <= i < |refs| ==> refs[i].Ref?
    requires EvalRefs(refs, b).Err?
    ensures exists i, k :: (0 <= i < |refs| && 0 <= k < |refs[i].args|
      && Located(EvalRefs(refs, b).error, refs[i].args[k], BindingsOnly(b)))
  {
    var err := EvalRefs(refs, b).error;
    EvalRefsFirstError(refs, b);
    var i :| 0 <= i < |refs| && EvalArgs(refs[i].args, b) == Err(err);
    EvalArgsFirstError(refs[i].args, b);
    var k :| 0 <= k < |refs[i].args| && Located(err, refs[i].args[k], BindingsOnly(b));
  }

  /**
    When the pattern matched but the dependencies could not be computed, the
    error was raised at a definite leaf or zero divisor of some argument of
    a reference in the matched expression, evaluated under the bindings alone.
  */
  lemma ComputeDependenciesErrorLocated(defs: seq<Pattern>, inv: Invocation, pat: Pattern, b: map<string, int>)
    requires FindAndBind(defs, inv) == Ok((pat, b)) && ComputeDependencies(defs, inv).Err?
    ensures exists i, k :: (0 <= i < |Refs(pat.expr)| && 0 <= k < |Refs(pat.expr)[i].args|
      && Located(ComputeDependencies(defs, inv).error, Refs(pat.expr)[i].args[k], BindingsOnly(b)))
  {
    assert ComputeDependencies(defs, inv) == Err(EvalRefs(Refs(pat.expr), b).error);
    EvalRefsErrorLocated(Refs(pat.expr), b);
  }

  /**
    Each node to run carries its reference's name and evaluated arguments,
    so equal references yield equal nodes.
  */
  lemma ComputeDependenciesSound(defs: seq<Pattern>, inv: Invocation)
    requires ComputeDependencies(defs, inv).Ok?
    ensures var (refs, deps) := ComputeDependencies(defs, inv).value;
      var b := FindAndBind(defs, inv).value.1;
      && (forall i :: 0 <= i < |refs| ==>
            deps[i].name == refs[i].name && EvalArgs(refs[i].args, b) == Ok(deps[i].args))
      && (forall i, j :: 0 <= i < |refs| && 0 <= j < |refs| && refs[i] == refs[j] ==> deps[i] == deps[j])
  {
    var (refs, deps) := ComputeDependencies(defs, inv).value;
    var b := FindAndBind(defs, inv).value.1;
    assert EvalRefs(refs, b) == Ok(deps);
  }

  /** A reference nested in another reference's argument aborts the scan. */
  lemma NestedReferenceRejected(defs: seq<Pattern>, inv: Invocation, i: nat, k: nat)
    requires FindAndBind(defs, inv).Ok?
    requires var refs := Refs(FindAndBind(defs, inv).value.0.expr);
      i < |refs| && k < |refs[i].args| && Refs(refs[i].args[k]) != []
    ensures ComputeDependencies(defs, inv).Err?
  {
    var (pat, b) := FindAndBind(defs, inv).value;
    NestedReferenceFails(Refs(pat.expr)[i].args[k], b);
  }

  /** The dict `{r: d for r, d in zip(refs, deps)}`: later pairs win. */
  function DepMap(refs: seq<Expr>, deps: seq<Invocation>): (m: map<Expr, Invocation>)
    requires |refs| == |deps|
    ensures forall x :: x in m <==> x in refs
    decreases |refs|
  {
    if refs == [] then map[]
    else
      var n := |refs| - 1;
      DepMap(refs[..n], deps[..n])[refs[n] := deps[n]]
  }

  /** Every node the dict maps to is one of the dependencies. */
  lemma {:induction false} DepMapRange(refs: seq<Expr>, deps: seq<Invocation>)
    requires |refs| == |deps|
    ensures forall x :: x in DepMap(refs, deps) ==> DepMap(refs, deps)[x] in deps
    decreases |refs|
  {
    if refs != [] {
      var n := |refs| - 1;
      DepMapRange(refs[..n], deps[..n]);
      assert forall d :: d in deps[..n] ==> d in deps;
    }
  }

  /** When equal references carry equal nodes, the dict maps each reference to its own node. */
  lemma {:induction false} DepMapAgrees(refs: seq<Expr>, deps: seq<Invocation>)
    requires |refs| == |deps|
    requires forall i, j :: 0 <= i < |refs| && 0 <= j < |refs| && refs[i] == refs[j] ==> deps[i] == deps[j]
    ensures forall i :: 0 <= i < |refs| ==> refs[i] in DepMap(refs, deps) && DepMap(refs, deps)[refs[i]] == deps[i]
    decreases |refs|
  {
    if refs != [] {
      var n := |refs| - 1;
      var m := DepMap(refs[..n], deps[..n]);
      assert DepMap(refs, deps) == m[refs[n] := deps[n]];
      DepMapAgrees(refs[..n], deps[..n]);
      forall i | 0 <= i < |refs|
        ensures refs[i] in DepMap(refs, deps) && DepMap(refs, deps)[refs[i]] == deps[i]
      {
        if i < n && refs[i] != refs[n] {
          assert refs[..n][i] == refs[i] && deps[..n][i] == deps[i];
          assert refs[i] in m && m[refs[i]] == deps[i];
        }
      }
    }
  }
}
