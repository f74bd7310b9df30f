/**
  Whole runs of the demonstration programs of hippo.py, iteration by
  iteration: a request that completes, a cycle that is caught, a nested
  reference that is refused, a pattern order that never terminates, and
  the reordered clauses that complete.
*/
module Runs {
  import opened Wrappers
  import opened Ast
  import opened Matcher
  import opened Arithmetic
  import opened Evaluator
  import opened Scanner
  import opened Scheduler
  import opened Invariant
  import opened Denotation
  import opened Engine
  import opened Examples

  // ----- Shared steps -----

  /** A pattern whose scan finds exactly one reference with one computable argument. */
  lemma ComputeOne(defs: seq<Pattern>, inv: Invocation, b: map<string, int>, f: string, e: Expr, v: int)
    requires FindAndBind(defs, inv).Ok? && FindAndBind(defs, inv).value.1 == b
    requires Refs(FindAndBind(defs, inv).value.0.expr) == [Ref(f, [e])]
    requires Eval(e, BindingsOnly(b)) == Ok(v)
    ensures ComputeDependencies(defs, inv) == Ok(([Ref(f, [e])], [Invocation(f, [v])]))
  {
    ArgsOne(e, b);
    var refs := [Ref(f, [e])];
    assert refs[1..] == [];
    assert EvalRefs(refs[1..], b) == Ok([]);
    assert EvalRefs(refs, b) == Ok([Invocation(f, [v])] + []);
    assert [Invocation(f, [v])] + [] == [Invocation(f, [v])];
  }

  /** Entering a node with one dependency puts its `post` item under one `pre` item. */
  lemma EnterOne(st: State, n: Invocation, r: Expr, d: Invocation)
    requires st.frontier != []
    ensures Enter(st, n, [r], [d]) ==
      State(st.frontier[..|st.frontier| - 1] + [Post(n, map[r := d]), Pre(d)], st.result, st.pending + {n})
  {
    assert DepMap([r], [d]) == DepMap([], [])[r := d];
    assert PreItems([d]) == [Pre(d)];
  }

  /** Entering a node without dependencies leaves only its `post` item in its place. */
  lemma StepEnterNone(defs: seq<Pattern>, st: State, n: Invocation)
    requires st.frontier != [] && st.frontier[|st.frontier| - 1] == Pre(n)
    requires n !in st.result && n !in st.pending
    requires ComputeDependencies(defs, n) == Ok(([], []))
    ensures Step(defs, st) ==
      Ok(State(st.frontier[..|st.frontier| - 1] + [Post(n, map[])], st.result, st.pending + {n}))
  {
    StepEnter(defs, st);
    assert DepMap([], []) == map[] && PreItems([]) == [];
    assert st.frontier[..|st.frontier| - 1] + [Post(n, map[])] + [] ==
      st.frontier[..|st.frontier| - 1] + [Post(n, map[])];
  }

  /** Entering a node with one dependency puts its `post` item under that dependency's `pre` item. */
  lemma StepEnterOne(defs: seq<Pattern>, st: State, n: Invocation, r: Expr, d: Invocation)
    requires st.frontier != [] && st.frontier[|st.frontier| - 1] == Pre(n)
    requires n !in st.result && n !in st.pending
    requires ComputeDependencies(defs, n) == Ok(([r], [d]))
    ensures Step(defs, st) ==
      Ok(State(st.frontier[..|st.frontier| - 1] + [Post(n, map[r := d]), Pre(d)], st.result, st.pending + {n}))
  {
    StepEnter(defs, st);
    EnterOne(st, n, r, d);
  }

  /** StepEnterOne for a frontier written as the items `below` the entered node's `pre` item. */
  lemma EnterOneOn(defs: seq<Pattern>, below: seq<Item>, res: map<Invocation, int>, pend: set<Invocation>,
                   n: Invocation, r: Expr, d: Invocation)
    requires n !in res && n !in pend
    requires ComputeDependencies(defs, n) == Ok(([r], [d]))
    ensures Step(defs, State(below + [Pre(n)], res, pend)) ==
      Ok(State(below + [Post(n, map[r := d]), Pre(d)], res, pend + {n}))
  {
    var st := State(below + [Pre(n)], res, pend);
    assert st.frontier[..|st.frontier| - 1] == below;
    StepEnterOne(defs, st, n, r, d);
  }

  /** StepEnterNone for a frontier written as the items `below` the entered node's `pre` item. */
  lemma EnterNoneOn(defs: seq<Pattern>, below: seq<Item>, res: map<Invocation, int>, pend: set<Invocation>,
                    n: Invocation)
    requires n !in res && n !in pend
    requires ComputeDependencies(defs, n) == Ok(([], []))
    ensures Step(defs, State(below + [Pre(n)], res, pend)) == Ok(State(below + [Post(n, map[])], res, pend + {n}))
  {
    var st := State(below + [Pre(n)], res, pend);
    assert st.frontier[..|st.frontier| - 1] == below;
    StepEnterNone(defs, st, n);
  }

  /** Once an iteration fails, the whole bounded run reports that failure. */
  lemma FailsAt(defs: seq<Pattern>, runList: seq<Invocation>, k: nat, fuel: nat, e: Error)
    requires k <= fuel && Iterate(defs, Initial(runList), k) == Err(e)
    ensures RunFor(defs, runList, fuel) == Failed(e)
  {
    RunForAt(defs, runList, fuel, k);
  }

  // ----- foo 7 on its own -----

  const FooState1 := State([Post(Call("foo", 7), map[])], map[], {Call("foo", 7)})
  const FooState2 := State([], map[Call("foo", 7) := 22], {})

  lemma FooRefs()
    ensures Refs(Foo.expr) == []
  {
    assert Refs(BinOp(Mul, Var("n"), Lit(3))) == [];
    assert Refs(Minus("n", 1)) == [];
    assert Refs(BinOp(Mul, Minus("n", 1), Lit(4))) == [];
    assert Refs(Foo.expr.left) == [];
  }

  /** `foo n` has no references, so it has no dependencies. */
  lemma FooNoDeps(n: int)
    ensures ComputeDependencies(ProgramA, Call("foo", n)) == Ok(([], []))
  {
    FooMatch(n);
    FooRefs();
    assert EvalRefs([], map["n" := n]) == Ok([]);
  }

  /** With n bound, the expression of `foo` evaluates to (3n + 4(n - 1)) // 2 without touching the tables. */
  lemma FooEval(n: int, m: map<Expr, Invocation>, res: map<Invocation, int>)
    ensures Eval(Foo.expr, Env(m, res, map["n" := n])) == Ok(FloorDiv(n * 3 + (n - 1) * 4, 2))
  {
    var env := Env(m, res, map["n" := n]);
    assert Eval(Minus("n", 1), env) == Ok(n - 1);
    assert Eval(BinOp(Mul, Minus("n", 1), Lit(4)), env) == Ok((n - 1) * 4);
    assert Eval(BinOp(Mul, Var("n"), Lit(3)), env) == Ok(n * 3);
    assert Eval(Foo.expr.left, env) == Ok(n * 3 + (n - 1) * 4);
  }

  lemma FooStepEnter()
    ensures Step(ProgramA, Initial([Call("foo", 7)])) == Ok(FooState1)
  {
    var s0 := Initial([Call("foo", 7)]);
    assert s0.frontier == [Pre(Call("foo", 7))];
    FooNoDeps(7);
    StepEnterNone(ProgramA, s0, Call("foo", 7));
    assert s0.frontier[..0] + [Post(Call("foo", 7), map[])] == FooState1.frontier;
    assert s0.pending + {Call("foo", 7)} == FooState1.pending;
  }

  lemma FooStepFinish()
    ensures Step(ProgramA, FooState1) == Ok(FooState2)
  {
    FooMatch(7);
    FooEval(7, map[], map[]);
    assert FloorDiv(7 * 3 + (7 - 1) * 4, 2) == 22;
    StepFinish(ProgramA, FooState1);
    assert Finish(FooState1, Call("foo", 7), 22) == FooState2;
  }

  /** `run(program_a, [foo 7])` enters foo 7, evaluates it to 22 and stops. */
  lemma FooSevenRun(fuel: nat)
    requires fuel >= 2
    ensures RunFor(ProgramA, [Call("foo", 7)], fuel) == Done(FooState2)
  {
    var s0 := Initial([Call("foo", 7)]);
    FooStepEnter();
    IterateUnfold(ProgramA, s0, 0, 1);
    FooStepFinish();
    IterateUnfold(ProgramA, s0, 1, 2);
    RunForAt(ProgramA, [Call("foo", 7)], fuel, 2);
  }

  // ----- program_cycle -----

  const CycleDef := Pattern("cycle", [Variable("x")], Ref("bicycle", [Minus("x", 1)]))
  const BicycleDef := Pattern("bicycle", [Variable("x")], Ref("cycle", [BinOp(Add, Var("x"), Lit(1))]))
  const ProgramCycle := [CycleDef, BicycleDef]

  const CycleState1 := State([Post(Call("cycle", 199), map[CycleDef.expr := Call("bicycle", 198)]),
                              Pre(Call("bicycle", 198))], map[], {Call("cycle", 199)})
  const CycleState2 := State([Post(Call("cycle", 199), map[CycleDef.expr := Call("bicycle", 198)]),
                              Post(Call("bicycle", 198), map[BicycleDef.expr := Call("cycle", 199)]),
                              Pre(Call("cycle", 199))], map[], {Call("cycle", 199), Call("bicycle", 198)})

  lemma CycleDeps(n: int)
    ensures ComputeDependencies(ProgramCycle, Call("cycle", n)) == Ok(([CycleDef.expr], [Call("bicycle", n - 1)]))
  {
    FindPatternFirstMatch(ProgramCycle, Call("cycle", n), 0);
    assert Bind(CycleDef.params, [n]) == map["x" := n];
    ComputeOne(ProgramCycle, Call("cycle", n), map["x" := n], "bicycle", Minus("x", 1), n - 1);
  }

  lemma BicycleDeps(n: int)
    ensures ComputeDependencies(ProgramCycle, Call("bicycle", n)) == Ok(([BicycleDef.expr], [Call("cycle", n + 1)]))
  {
    FindPatternFirstMatch(ProgramCycle, Call("bicycle", n), 1);
    assert Bind(BicycleDef.params, [n]) == map["x" := n];
    ComputeOne(ProgramCycle, Call("bicycle", n), map["x" := n], "cycle", BinOp(Add, Var("x"), Lit(1)), n + 1);
  }

  lemma CycleStepOne()
    ensures Step(ProgramCycle, Initial([Call("cycle", 199)])) == Ok(CycleState1)
  {
    var s0 := Initial([Call("cycle", 199)]);
    assert s0.frontier == [Pre(Call("cycle", 199))];
    CycleDeps(199);
    StepEnterOne(ProgramCycle, s0, Call("cycle", 199), CycleDef.expr, Call("bicycle", 198));
    assert s0.frontier[..0] + [Post(Call("cycle", 199), map[CycleDef.expr := Call("bicycle", 198)]),
      Pre(Call("bicycle", 198))] == CycleState1.frontier;
    assert s0.pending + {Call("cycle", 199)} == CycleState1.pending;
  }

  lemma CycleStepTwo()
    ensures Step(ProgramCycle, CycleState1) == Ok(CycleState2)
  {
    var below := [CycleState1.frontier[0]];
    BicycleDeps(198);
    EnterOneOn(ProgramCycle, below, map[], {Call("cycle", 199)}, Call("bicycle", 198), BicycleDef.expr, Call("cycle", 199));
    assert CycleState1.frontier == below + [Pre(Call("bicycle", 198))];
    assert CycleState2.frontier == below + [Post(Call("bicycle", 198), map[BicycleDef.expr := Call("cycle", 199)]),
      Pre(Call("cycle", 199))];
    assert {Call("cycle", 199)} + {Call("bicycle", 198)} == CycleState2.pending;
  }

  /**
    `run(program_cycle)`: cycle 199 asks for bicycle 198, which asks for
    cycle 199 again while it is still pending, and the run stops there.
  */
  lemma CycleRun(fuel: nat)
    requires fuel >= 3
    ensures RunFor(ProgramCycle, [Call("cycle", 199)], fuel) == Failed(CyclicDependency(Call("cycle", 199)))
  {
    var s0 := Initial([Call("cycle", 199)]);
    CycleStepOne();
    IterateUnfold(ProgramCycle, s0, 0, 1);
    CycleStepTwo();
    IterateUnfold(ProgramCycle, s0, 1, 2);
    assert Step(ProgramCycle, CycleState2) == Err(CyclicDependency(Call("cycle", 199)));
    IterateUnfold(ProgramCycle, s0, 2, 3);
    FailsAt(ProgramCycle, [Call("cycle", 199)], 3, fuel, CyclicDependency(Call("cycle", 199)));
  }

  // ----- program_nested_ref -----

  const ADef := Pattern("a", [Variable("x")], Var("x"))
  const BDef := Pattern("b", [Variable("x")], Lit(1))
  const NestedFoo := Pattern("foo", [Variable("x")], Ref("a", [Ref("b", [Var("x")])]))
  const ProgramNested := [ADef, BDef, NestedFoo]

  /**
    `run(program_nested_ref)`: the argument of `[a [b x]]` is itself a
    reference, which the argument evaluator cannot resolve, so the first
    iteration fails.
  */
  lemma NestedRun(fuel: nat)
    requires fuel >= 1
    ensures RunFor(ProgramNested, [Call("foo", 1)], fuel) == Failed(UnresolvedReference(Ref("b", [Var("x")])))
  {
    var s0 := Initial([Call("foo", 1)]);
    assert s0.frontier == [Pre(Call("foo", 1))];
    FindPatternFirstMatch(ProgramNested, Call("foo", 1), 2);
    assert Bind(NestedFoo.params, [1]) == map["x" := 1];
    var err := UnresolvedReference(Ref("b", [Var("x")]));
    assert Eval(Ref("b", [Var("x")]), BindingsOnly(map["x" := 1])) == Err(err);
    assert EvalArgs([Ref("b", [Var("x")])], map["x" := 1]) == Err(err);
    assert Refs(NestedFoo.expr) == [NestedFoo.expr];
    assert EvalRefs([NestedFoo.expr], map["x" := 1]) == Err(err);
    assert Step(ProgramNested, s0) == Err(err);
    IterateUnfold(ProgramNested, s0, 0, 1);
    FailsAt(ProgramNested, [Call("foo", 1)], 1, fuel, err);
  }

  // ----- program_nat_bad -----

  const NatRef := Ref("nat", [Minus("n", 1)])
  const NatStep := Pattern("nat", [Variable("n")], BinOp(Add, NatRef, Lit(1)))
  const NatZero := Pattern("nat", [Literal(0)], Lit(0))
  const ProgramNatBad := [NatStep, NatZero]

  /** The catch-all `nat n` comes first, so it shadows `nat 0` even for 0. */
  lemma NatZeroShadowed(n: int)
    ensures FindAndBind(ProgramNatBad, Call("nat", n)) == Ok((NatStep, map["n" := n]))
  {
    FindPatternFirstMatch(ProgramNatBad, Call("nat", n), 0);
    assert Bind(NatStep.params, [n]) == map["n" := n];
  }

  lemma NatDeps(n: int)
    ensures ComputeDependencies(ProgramNatBad, Call("nat", n)) == Ok(([NatRef], [Call("nat", n - 1)]))
  {
    NatZeroShadowed(n);
    assert Refs(NatStep.expr) == [NatRef] + [];
    ComputeOne(ProgramNatBad, Call("nat", n), map["n" := n], "nat", Minus("n", 1), n - 1);
  }

  /** The node `nat (10 - i)`, requested at depth i. */
  function NatNode(i: int): Invocation
  {
    Call("nat", 10 - i)
  }

  /** The `post` item left behind for `nat (10 - i)`. */
  function NatPost(i: int): Item
  {
    Post(NatNode(i), map[NatRef := NatNode(i + 1)])
  }

  /** The `post` items for nat 10 down to nat (11 - k), bottom first. */
  function NatPosts(k: nat): (items: seq<Item>)
    ensures |items| == k
  {
    if k == 0 then [] else NatPosts(k - 1) + [NatPost(k - 1)]
  }

  /** The nodes nat 10 down to nat (11 - k). */
  function NatPending(k: nat): set<Invocation>
  {
    if k == 0 then {} else NatPending(k - 1) + {NatNode(k - 1)}
  }

  /** A node deeper than the pending ones is not pending. */
  lemma {:induction false} NatNodeFresh(j: nat, i: int)
    requires i >= j
    ensures NatNode(i) !in NatPending(j)
  {
    if j > 0 {
      NatNodeFresh(j - 1, i);
      assert NatNode(i).args[0] != NatNode(j - 1).args[0];
    }
  }

  /**
    The state after k iterations: `post` items for nat 10 down to
    nat (11 - k), all pending, and a `pre` item for nat (10 - k) on top.
  */
  function NatBadState(k: nat): State
  {
    State(NatPosts(k) + [Pre(NatNode(k))], map[], NatPending(k))
  }

  lemma NatDepsAt(j: nat, k: nat)
    requires k == j + 1
    ensures ComputeDependencies(ProgramNatBad, NatNode(j)) == Ok(([NatRef], [NatNode(k)]))
  {
    var n := 10 - j;
    NatDeps(n);
    assert NatNode(j) == Call("nat", n) && NatNode(k) == Call("nat", n - 1);
  }

  lemma NatBadStep(j: nat, k: nat)
    requires k == j + 1
    ensures Step(ProgramNatBad, NatBadState(j)) == Ok(NatBadState(k))
  {
    var st := NatBadState(j);
    NatNodeFresh(j, j);
    NatDepsAt(j, k);
    StepEnterOne(ProgramNatBad, st, NatNode(j), NatRef, NatNode(k));
    assert st.frontier[..|st.frontier| - 1] == NatPosts(j);
    assert NatPosts(k) == NatPosts(j) + [NatPost(j)];
    assert NatPosts(j) + [NatPost(j), Pre(NatNode(k))] == NatPosts(k) + [Pre(NatNode(k))];
    assert NatPending(k) == NatPending(j) + {NatNode(j)};
  }

  /** Every iteration of `run(program_nat_bad)` leaves the state `NatBadState` describes. */
  lemma {:induction false} NatBadIterate(k: nat)
    ensures Iterate(ProgramNatBad, Initial([Call("nat", 10)]), k) == Ok(NatBadState(k))
  {
    var s0 := Initial([Call("nat", 10)]);
    if k == 0 {
      assert s0.frontier == [Pre(Call("nat", 10))];
      assert NatBadState(0).frontier == [] + [Pre(Call("nat", 10))];
      assert PreItems([Call("nat", 10)]) == [Pre(Call("nat", 10))];
      assert s0 == NatBadState(0);
    } else {
      var j: nat := k - 1;
      NatBadIterate(j);
      IterateUnfold(ProgramNatBad, s0, j, k);
      NatBadStep(j, k);
    }
  }

  /** `run(program_nat_bad)` never finishes: whatever the fuel, the frontier is not empty. */
  lemma NatBadDiverges(fuel: nat)
    ensures RunFor(ProgramNatBad, [Call("nat", 10)], fuel) == OutOfFuel
  {
    NatBadIterate(fuel);
  }

  // ----- the same clauses with the base case first -----

  const ProgramNatGood := [NatZero, NatStep]

  lemma NatGoodZero()
    ensures FindAndBind(ProgramNatGood, Call("nat", 0)) == Ok((NatZero, map[]))
  {
    assert Bind(NatZero.params, [0]) == map[];
  }

  lemma NatGoodStep(n: int)
    requires n != 0
    ensures FindAndBind(ProgramNatGood, Call("nat", n)) == Ok((NatStep, map["n" := n]))
  {
    assert !ParamAccepts(NatZero.params[0], n);
    FindPatternFirstMatch(ProgramNatGood, Call("nat", n), 1);
    assert Bind(NatStep.params, [n]) == map["n" := n];
  }

  /** With `nat 0` listed first, every consistent table gives `nat n` the value n. */
  lemma {:induction false} NatGoodTable(res: map<Invocation, int>, n: nat)
    requires Consistent(ProgramNatGood, res) && Call("nat", n) in res
    ensures res[Call("nat", n)] == n
    decreases n
  {
    ConsistentDenotes(ProgramNatGood, res, Call("nat", n));
    if n == 0 {
      NatGoodZero();
    } else {
      NatGoodStep(n);
      var b := map["n" := n];
      ArgsOne(Minus("n", 1), b);
      assert Denote(NatRef, b, res).Some?;
      assert Call("nat", n - 1) in res;
      NatGoodTable(res, n - 1);
    }
  }

  /** `nat n` for n != 0 depends on `nat (n - 1)` alone. */
  lemma NatGoodDeps(n: int)
    requires n != 0
    ensures ComputeDependencies(ProgramNatGood, Call("nat", n)) == Ok(([NatRef], [Call("nat", n - 1)]))
  {
    NatGoodStep(n);
    assert Refs(NatStep.expr) == [NatRef] + [];
    ComputeOne(ProgramNatGood, Call("nat", n), map["n" := n], "nat", Minus("n", 1), n - 1);
  }

  /** `nat 0` has no references, so it has no dependencies. */
  lemma NatGoodDepsZero()
    ensures ComputeDependencies(ProgramNatGood, Call("nat", 0)) == Ok(([], []))
  {
    NatGoodZero();
    assert EvalRefs([], map[]) == Ok([]);
  }

  /** The `post` item of `nat n` pushed when it was entered. */
  function NatGoodPost(n: int): Item
  {
    Post(Call("nat", n), map[NatRef := Call("nat", n - 1)])
  }

  /** Entering `nat n` for n != 0 pushes its `post` item and the `pre` item of `nat (n - 1)`. */
  lemma NatGoodEnter(below: seq<Item>, res: map<Invocation, int>, pend: set<Invocation>, n: int)
    requires n != 0 && Call("nat", n) !in res && Call("nat", n) !in pend
    ensures Step(ProgramNatGood, State(below + [Pre(Call("nat", n))], res, pend)) ==
      Ok(State(below + [NatGoodPost(n), Pre(Call("nat", n - 1))], res, pend + {Call("nat", n)}))
  {
    NatGoodDeps(n);
    EnterOneOn(ProgramNatGood, below, res, pend, Call("nat", n), NatRef, Call("nat", n - 1));
  }

  /** Finishing `nat n` for n != 0 records one more than the value of `nat (n - 1)`. */
  lemma NatGoodFinish(below: seq<Item>, res: map<Invocation, int>, pend: set<Invocation>, n: int)
    requires n != 0 && Call("nat", n - 1) in res
    ensures Step(ProgramNatGood, State(below + [NatGoodPost(n)], res, pend)) ==
      Ok(State(below, res[Call("nat", n) := res[Call("nat", n - 1)] + 1], pend - {Call("nat", n)}))
  {
    var st := State(below + [NatGoodPost(n)], res, pend);
    assert st.frontier[..|st.frontier| - 1] == below;
    NatGoodStep(n);
    var env := Env(map[NatRef := Call("nat", n - 1)], st.result, map["n" := n]);
    assert Eval(Minus("n", 1), BindingsOnly(env.bindings)) == Ok(n - 1);
    ArgsOne(Minus("n", 1), env.bindings);
    assert Eval(NatStep.expr, env) == Ok(st.result[Call("nat", n - 1)] + 1);
    StepFinish(ProgramNatGood, st);
  }

  const NatGood1 := State([NatGoodPost(3), Pre(Call("nat", 2))], map[], {Call("nat", 3)})
  const NatGood2 := State([NatGoodPost(3), NatGoodPost(2), Pre(Call("nat", 1))], map[],
                          {Call("nat", 3), Call("nat", 2)})
  const NatGood3 := State([NatGoodPost(3), NatGoodPost(2), NatGoodPost(1), Pre(Call("nat", 0))], map[],
                          {Call("nat", 3), Call("nat", 2), Call("nat", 1)})
  const NatGood4 := State([NatGoodPost(3), NatGoodPost(2), NatGoodPost(1), Post(Call("nat", 0), map[])], map[],
                          {Call("nat", 3), Call("nat", 2), Call("nat", 1), Call("nat", 0)})
  const NatGood5 := State([NatGoodPost(3), NatGoodPost(2), NatGoodPost(1)], map[Call("nat", 0) := 0],
                          {Call("nat", 3), Call("nat", 2), Call("nat", 1)})
  const NatGood6 := State([NatGoodPost(3), NatGoodPost(2)], map[Call("nat", 0) := 0, Call("nat", 1) := 1],
                          {Call("nat", 3), Call("nat", 2)})
  const NatGood7 := State([NatGoodPost(3)], map[Call("nat", 0) := 0, Call("nat", 1) := 1, Call("nat", 2) := 2],
                          {Call("nat", 3)})
  const NatGood8 := State([], map[Call("nat", 0) := 0, Call("nat", 1) := 1, Call("nat", 2) := 2, Call("nat", 3) := 3], {})

  lemma NatGoodTo1()
    ensures Step(ProgramNatGood, Initial([Call("nat", 3)])) == Ok(NatGood1)
  {
    var s0 := Initial([Call("nat", 3)]);
    assert s0.frontier == [Pre(Call("nat", 3))] == [] + [Pre(Call("nat", 3))];
    NatGoodEnter([], map[], {}, 3);
    assert NatGood1.frontier == [] + [NatGoodPost(3), Pre(Call("nat", 2))];
    assert {} + {Call("nat", 3)} == NatGood1.pending;
  }

  lemma NatGoodTo2()
    ensures Step(ProgramNatGood, NatGood1) == Ok(NatGood2)
  {
    var below := [NatGoodPost(3)];
    NatGoodEnter(below, map[], NatGood1.pending, 2);
    assert NatGood1.frontier == below + [Pre(Call("nat", 2))];
    assert NatGood2.frontier == below + [NatGoodPost(2), Pre(Call("nat", 1))];
    assert NatGood1.pending + {Call("nat", 2)} == NatGood2.pending;
  }

  lemma NatGoodTo3()
    ensures Step(ProgramNatGood, NatGood2) == Ok(NatGood3)
  {
    var below := [NatGoodPost(3), NatGoodPost(2)];
    NatGoodEnter(below, map[], NatGood2.pending, 1);
    assert NatGood2.frontier == below + [Pre(Call("nat", 1))];
    assert NatGood3.frontier == below + [NatGoodPost(1), Pre(Call("nat", 0))];
    assert NatGood2.pending + {Call("nat", 1)} == NatGood3.pending;
  }

  lemma NatGoodTo4()
    ensures Step(ProgramNatGood, NatGood3) == Ok(NatGood4)
  {
    var below := [NatGoodPost(3), NatGoodPost(2), NatGoodPost(1)];
    NatGoodDepsZero();
    EnterNoneOn(ProgramNatGood, below, map[], NatGood3.pending, Call("nat", 0));
    assert NatGood3.frontier == below + [Pre(Call("nat", 0))];
    assert NatGood4.frontier == below + [Post(Call("nat", 0), map[])];
    assert NatGood3.pending + {Call("nat", 0)} == NatGood4.pending;
  }

  lemma NatGoodTo5()
    ensures Step(ProgramNatGood, NatGood4) == Ok(NatGood5)
  {
    NatGoodZero();
    assert Eval(Lit(0), Env(map[], map[], map[])) == Ok(0);
    StepFinish(ProgramNatGood, NatGood4);
    assert NatGood4.frontier[..3] == NatGood5.frontier;
    assert NatGood4.pending - {Call("nat", 0)} == NatGood5.pending;
  }

  lemma NatGoodTo6()
    ensures Step(ProgramNatGood, NatGood5) == Ok(NatGood6)
  {
    var below := [NatGoodPost(3), NatGoodPost(2)];
    NatGoodFinish(below, NatGood5.result, NatGood5.pending, 1);
    assert NatGood5.frontier == below + [NatGoodPost(1)];
    assert NatGood5.pending - {Call("nat", 1)} == NatGood6.pending;
    assert NatGood5.result[Call("nat", 1) := 1] == NatGood6.result;
  }

  lemma NatGoodTo7()
    ensures Step(ProgramNatGood, NatGood6) == Ok(NatGood7)
  {
    var below := [NatGoodPost(3)];
    NatGoodFinish(below, NatGood6.result, NatGood6.pending, 2);
    assert NatGood6.frontier == below + [NatGoodPost(2)];
    assert NatGood6.pending - {Call("nat", 2)} == NatGood7.pending;
    assert NatGood6.result[Call("nat", 2) := 2] == NatGood7.result;
  }

  lemma NatGoodTo8()
    ensures Step(ProgramNatGood, NatGood7) == Ok(NatGood8)
  {
    NatGoodFinish([], NatGood7.result, NatGood7.pending, 3);
    assert NatGood7.frontier == [] + [NatGoodPost(3)];
    assert NatGood7.pending - {Call("nat", 3)} == NatGood8.pending;
    assert NatGood7.result[Call("nat", 3) := 3] == NatGood8.result;
  }

  /** One more iteration from a state with a non-empty frontier is one `Step`. */
  lemma Advance(defs: seq<Pattern>, s0: State, j: nat, k: nat, st: State, st': State)
    requires k == j + 1 && Iterate(defs, s0, j) == Ok(st) && st.frontier != []
    requires Step(defs, st) == Ok(st')
    ensures Iterate(defs, s0, k) == Ok(st')
  {
    IterateUnfold(defs, s0, j, k);
  }

  /**
    `run([nat 0 = 0; nat n = [nat n-1] + 1], [nat 3])` completes in eight
    iterations, four entering and four finishing, with nat 0..3 valued 0..3.
  */
  lemma NatGoodRun(fuel: nat)
    requires fuel >= 8
    ensures RunFor(ProgramNatGood, [Call("nat", 3)], fuel) == Done(NatGood8)
  {
    var s0 := Initial([Call("nat", 3)]);
    NatGoodTo1();
    Advance(ProgramNatGood, s0, 0, 1, s0, NatGood1);
    NatGoodTo2();
    Advance(ProgramNatGood, s0, 1, 2, NatGood1, NatGood2);
    NatGoodTo3();
    Advance(ProgramNatGood, s0, 2, 3, NatGood2, NatGood3);
    NatGoodTo4();
    Advance(ProgramNatGood, s0, 3, 4, NatGood3, NatGood4);
    NatGoodTo5();
    Advance(ProgramNatGood, s0, 4, 5, NatGood4, NatGood5);
    NatGoodTo6();
    Advance(ProgramNatGood, s0, 5, 6, NatGood5, NatGood6);
    NatGoodTo7();
    Advance(ProgramNatGood, s0, 6, 7, NatGood6, NatGood7);
    NatGoodTo8();
    Advance(ProgramNatGood, s0, 7, 8, NatGood7, NatGood8);
    RunForAt(ProgramNatGood, [Call("nat", 3)], fuel, 8);
  }

  /** `run` on the reordered clauses: `nat 3` is 3 whenever it completes, and it completes within eight iterations. */
  method RunNatGood(fuel: nat) returns (o: Outcome)
    ensures o == RunFor(ProgramNatGood, [Call("nat", 3)], fuel)
    ensures fuel >= 8 ==> o.Done?
    ensures o.Done? ==> Call("nat", 3) in o.final.result && o.final.result[Call("nat", 3)] == 3
  {
    o := Run(ProgramNatGood, [Call("nat", 3)], fuel);
    if fuel >= 8 {
      NatGoodRun(fuel);
    }
    if o.Done? {
      assert [Call("nat", 3)][0] in o.final.result;
      NatGoodTable(o.final.result, 3);
    }
  }
}
