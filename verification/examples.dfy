/**
  The demonstration programs of hippo.py, written as the definition and
  request lists the parser would hand to `run`, with what the engine does
  on each.
*/
module Examples {
  import opened Wrappers
  import opened Ast
  import opened Matcher
  import opened Arithmetic
  import opened Evaluator
  import opened Scanner
  import opened Scheduler
  import opened Invariant
  import opened Denotation
  import opened Engine

  function Call(f: string, a: int): Invocation
  {
    Invocation(f, [a])
  }

  /** `x - k` for a variable x. */
  function Minus(x: string, k: int): Expr
  {
    BinOp(Sub, Var(x), Lit(k))
  }

  // program_a

  const FibZero := Pattern("fib", [Literal(0)], Lit(0))
  const FibOne := Pattern("fib", [Literal(1)], Lit(1))
  const AStep := Pattern("a", [Variable("n")],
    BinOp(Add, Ref("fib", [Minus("n", 1)]), Ref("fib", [Minus("n", 2)])))
  const FibN := Pattern("fib", [Variable("n")], Ref("a", [Var("n")]))
  const Bar := Pattern("bar", [Variable("m"), Variable("n")], Ref("fib", [Var("n")]))
  const Foo := Pattern("foo", [Variable("n")],
    BinOp(Div,
      BinOp(Add, BinOp(Mul, Var("n"), Lit(3)), BinOp(Mul, Minus("n", 1), Lit(4))),
      Lit(2)))
  const Zar := Pattern("zar", [Variable("x"), Variable("y")],
    BinOp(Div,
      BinOp(Mul, Var("x"), Var("y")),
      BinOp(Add, Var("x"),
        BinOp(Mul, Var("y"), BinOp(Add, Ref("foo", [Var("x")]), Ref("foo", [Var("y")]))))))

  const ProgramA := [FibZero, FibOne, AStep, FibN, Bar, Foo, Zar]
  const RunA := [Call("fib", 10), Invocation("bar", [0, 1]), Call("foo", 7), Invocation("zar", [8, 6])]

  ghost function Fib(n: nat): nat
  {
    if n < 2 then n else Fib(n - 1) + Fib(n - 2)
  }

  /** A one-argument reference evaluates its argument alone. */
  lemma ArgsOne(e: Expr, b: map<string, int>)
    requires Eval(e, BindingsOnly(b)).Ok?
    ensures EvalArgs([e], b) == Ok([Eval(e, BindingsOnly(b)).value])
  {
    assert [e][1..] == [];
    assert EvalArgs([], b) == Ok([]);
    var v := Eval(e, BindingsOnly(b)).value;
    assert [v] + [] == [v];
  }

  lemma FibZeroMatch()
    ensures FindAndBind(ProgramA, Call("fib", 0)) == Ok((FibZero, map[]))
  {
    assert Bind(FibZero.params, [0]) == map[];
  }

  lemma FibOneMatch()
    ensures FindAndBind(ProgramA, Call("fib", 1)) == Ok((FibOne, map[]))
  {
    assert !ParamAccepts(FibZero.params[0], 1);
    FindPatternFirstMatch(ProgramA, Call("fib", 1), 1);
    assert Bind(FibOne.params, [1]) == map[];
  }

  lemma FibNMatch(n: int)
    requires n != 0 && n != 1
    ensures FindAndBind(ProgramA, Call("fib", n)) == Ok((FibN, map["n" := n]))
  {
    assert !ParamAccepts(FibZero.params[0], n) && !ParamAccepts(FibOne.params[0], n);
    FindPatternFirstMatch(ProgramA, Call("fib", n), 3);
    assert Bind(FibN.params, [n]) == map["n" := n];
  }

  lemma AMatch(n: int)
    ensures FindAndBind(ProgramA, Call("a", n)) == Ok((AStep, map["n" := n]))
  {
    FindPatternFirstMatch(ProgramA, Call("a", n), 2);
    assert Bind(AStep.params, [n]) == map["n" := n];
  }

  lemma FibNDenote(n: int, res: map<Invocation, int>, v: int)
    requires Denote(FibN.expr, map["n" := n], res) == Some(v)
    ensures Call("a", n) in res && res[Call("a", n)] == v
  {
    ArgsOne(Var("n"), map["n" := n]);
  }

  lemma AStepDenote(n: int, res: map<Invocation, int>, v: int)
    requires Denote(AStep.expr, map["n" := n], res) == Some(v)
    ensures Call("fib", n - 1) in res && Call("fib", n - 2) in res
    ensures v == res[Call("fib", n - 1)] + res[Call("fib", n - 2)]
  {
    ArgsOne(Minus("n", 1), map["n" := n]);
    ArgsOne(Minus("n", 2), map["n" := n]);
  }

  /** `fib 0` and `fib 1` are fixed by their literal patterns. */
  lemma FibBase(res: map<Invocation, int>, n: nat)
    requires Consistent(ProgramA, res) && Call("fib", n) in res && n < 2
    ensures res[Call("fib", n)] == n
  {
    ConsistentDenotes(ProgramA, res, Call("fib", n));
    if n == 0 {
      FibZeroMatch();
    } else {
      FibOneMatch();
    }
  }

  /** Beyond the literal patterns, `fib n` goes through `a n` to the two previous entries. */
  lemma FibRecurrence(res: map<Invocation, int>, n: int)
    requires Consistent(ProgramA, res) && Call("fib", n) in res && n != 0 && n != 1
    ensures Call("fib", n - 1) in res && Call("fib", n - 2) in res
    ensures res[Call("fib", n)] == res[Call("fib", n - 1)] + res[Call("fib", n - 2)]
  {
    ConsistentDenotes(ProgramA, res, Call("fib", n));
    FibNMatch(n);
    FibNDenote(n, res, res[Call("fib", n)]);
    ConsistentDenotes(ProgramA, res, Call("a", n));
    AMatch(n);
    AStepDenote(n, res, res[Call("a", n)]);
  }

  /** In any consistent table for program A, `fib n` holds the n-th Fibonacci number. */
  lemma {:induction false} FibTable(res: map<Invocation, int>, n: nat)
    requires Consistent(ProgramA, res) && Call("fib", n) in res
    ensures res[Call("fib", n)] == Fib(n)
    decreases n
  {
    if n < 2 {
      FibBase(res, n);
    } else {
      FibRecurrence(res, n);
      FibTable(res, n - 1);
      FibTable(res, n - 2);
    }
  }

  lemma BarMatch(m: int, n: int)
    ensures FindAndBind(ProgramA, Invocation("bar", [m, n])) == Ok((Bar, map["m" := m, "n" := n]))
  {
    FindPatternFirstMatch(ProgramA, Invocation("bar", [m, n]), 4);
    assert Bind(Bar.params, [m, n]) == map["m" := m, "n" := n];
  }

  lemma FooMatch(n: int)
    ensures FindAndBind(ProgramA, Call("foo", n)) == Ok((Foo, map["n" := n]))
  {
    FindPatternFirstMatch(ProgramA, Call("foo", n), 5);
    assert Bind(Foo.params, [n]) == map["n" := n];
  }

  lemma ZarMatch(x: int, y: int)
    ensures FindAndBind(ProgramA, Invocation("zar", [x, y])) == Ok((Zar, map["x" := x, "y" := y]))
  {
    FindPatternFirstMatch(ProgramA, Invocation("zar", [x, y]), 6);
    assert Bind(Zar.params, [x, y]) == map["x" := x, "y" := y];
  }

  /** `bar m n` is `fib n`, whatever m is. */
  lemma BarTable(res: map<Invocation, int>, m: int, n: nat)
    requires Consistent(ProgramA, res) && Invocation("bar", [m, n]) in res
    ensures res[Invocation("bar", [m, n])] == Fib(n)
  {
    ConsistentDenotes(ProgramA, res, Invocation("bar", [m, n]));
    BarMatch(m, n);
    ArgsOne(Var("n"), map["m" := m, "n" := n]);
    FibTable(res, n);
  }

  /** `foo n` is (3n + 4(n - 1)) floor-divided by 2. */
  lemma FooTable(res: map<Invocation, int>, n: int)
    requires Consistent(ProgramA, res) && Call("foo", n) in res
    ensures res[Call("foo", n)] == FloorDiv(n * 3 + (n - 1) * 4, 2)
  {
    ConsistentDenotes(ProgramA, res, Call("foo", n));
    FooMatch(n);
    var b := map["n" := n];
    var left := BinOp(Mul, Var("n"), Lit(3));
    var right := BinOp(Mul, Minus("n", 1), Lit(4));
    assert Denote(Minus("n", 1), b, res) == Some(n - 1);
    assert Denote(left, b, res) == Some(n * 3);
    assert Denote(right, b, res) == Some((n - 1) * 4);
    assert Denote(BinOp(Add, left, right), b, res) == Some(n * 3 + (n - 1) * 4);
  }

  lemma ZarDenote(x: int, y: int, res: map<Invocation, int>, v: int)
    requires Denote(Zar.expr, map["x" := x, "y" := y], res) == Some(v)
    ensures Call("foo", x) in res && Call("foo", y) in res
    ensures var d := x + y * (res[Call("foo", x)] + res[Call("foo", y)]);
      d != 0 && v == FloorDiv(x * y, d)
  {
    var b := map["x" := x, "y" := y];
    ArgsOne(Var("x"), b);
    ArgsOne(Var("y"), b);
    var fooX := Ref("foo", [Var("x")]);
    var fooY := Ref("foo", [Var("y")]);
    var sum := BinOp(Add, fooX, fooY);
    var prod := BinOp(Mul, Var("y"), sum);
    var den := BinOp(Add, Var("x"), prod);
    var num := BinOp(Mul, Var("x"), Var("y"));
    assert Zar.expr == BinOp(Div, num, den);
    assert Denote(num, b, res) == Some(x * y);
    assert Denote(den, b, res).Some?;
    assert Denote(prod, b, res).Some?;
    assert Denote(sum, b, res).Some?;
    assert Denote(fooX, b, res).Some? && Denote(fooY, b, res).Some?;
    assert Call("foo", x) in res && Call("foo", y) in res;
    assert Denote(fooX, b, res) == Some(res[Call("foo", x)]);
    assert Denote(fooY, b, res) == Some(res[Call("foo", y)]);
    var fx, fy := res[Call("foo", x)], res[Call("foo", y)];
    assert Denote(sum, b, res) == Some(fx + fy);
    assert Denote(prod, b, res) == Some(y * (fx + fy));
    assert Denote(den, b, res) == Some(x + y * (fx + fy));
  }

  /**
    `zar x y` needs `foo x` and `foo y`, its divisor is not zero, and it is
    the floor quotient of x * y by x + y * (foo x + foo y).
  */
  lemma ZarTable(res: map<Invocation, int>, x: int, y: int)
    requires Consistent(ProgramA, res) && Invocation("zar", [x, y]) in res
    ensures Call("foo", x) in res && Call("foo", y) in res
    ensures var d := x + y * (res[Call("foo", x)] + res[Call("foo", y)]);
      d != 0 && res[Invocation("zar", [x, y])] == FloorDiv(x * y, d)
  {
    ConsistentDenotes(ProgramA, res, Invocation("zar", [x, y]));
    ZarMatch(x, y);
    ZarDenote(x, y, res, res[Invocation("zar", [x, y])]);
  }

  /** The four values program A's RUN line asks for, in any consistent table that holds them. */
  lemma ProgramAValues(res: map<Invocation, int>)
    requires Consistent(ProgramA, res)
    requires Call("fib", 10) in res && Invocation("bar", [0, 1]) in res
    requires Call("foo", 7) in res && Invocation("zar", [8, 6]) in res
    ensures res[Call("fib", 10)] == 55
    ensures res[Invocation("bar", [0, 1])] == 1
    ensures res[Call("foo", 7)] == 22
    ensures res[Invocation("zar", [8, 6])] == 0
  {
    FibTable(res, 10);
    BarTable(res, 0, 1);
    FooTable(res, 7);
    ZarTable(res, 8, 6);
    FooTable(res, 8);
    FooTable(res, 6);
  }

  /** `run(node_list, run_list)` on program A: if it completes, it prints 55, 1, 22 and 0. */
  method RunProgramA(fuel: nat) returns (o: Outcome)
    ensures o == RunFor(ProgramA, RunA, fuel)
    ensures o.Done? ==>
      && Call("fib", 10) in o.final.result && Invocation("bar", [0, 1]) in o.final.result
      && Call("foo", 7) in o.final.result && Invocation("zar", [8, 6]) in o.final.result
      && o.final.result[Call("fib", 10)] == 55
      && o.final.result[Invocation("bar", [0, 1])] == 1
      && o.final.result[Call("foo", 7)] == 22
      && o.final.result[Invocation("zar", [8, 6])] == 0
  {
    o := Run(ProgramA, RunA, fuel);
    if o.Done? {
      assert RunA[0] in o.final.result && RunA[1] in o.final.result;
      assert RunA[2] in o.final.result && RunA[3] in o.final.result;
      ProgramAValues(o.final.result);
    }
  }
}
