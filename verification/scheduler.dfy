/** The explicit-stack scheduler of `run`: its work items, its state and one loop iteration. */
module Scheduler {
  import opened Wrappers
  import opened Ast
  import opened Matcher
  import opened Evaluator
  import opened Scanner

  /**
    A frontier entry: `('pre', n, None)` asks for n to be resolved,
    `('post', n, refs_to_deps)` evaluates n once its dependencies are in.
  */
  datatype Item = Pre(node: Invocation) | Post(node: Invocation, refsToDeps: map<Expr, Invocation>)

  /** The loop state: the frontier (top at the end), the memo `result` and the `pending` set. */
  datatype State = State(frontier: seq<Item>, result: map<Invocation, int>, pending: set<Invocation>)

  /** How a bounded run ends; `run` itself returns `final.result`. */
  datatype Outcome = Done(final: State) | Failed(error: Error) | OutOfFuel

  function PreItems(ns: seq<Invocation>): (items: seq<Item>)
    ensures |items| == |ns|
    ensures forall i :: 0 <= i < |ns| ==> items[i] == Pre(ns[i])
  {
    seq(|ns|, i requires 0 <= i < |ns| => Pre(ns[i]))
  }

  /**
    One `pre` item per requested node, in request order, so the last request
    is on top and is popped first; nothing computed or pending.
  */
  function Initial(runList: seq<Invocation>): (st: State)
    ensures |st.frontier| == |runList|
    ensures forall i :: 0 <= i < |runList| ==> st.frontier[i] == Pre(runList[i])
    ensures runList != [] ==> st.frontier[|st.frontier| - 1] == Pre(runList[|runList| - 1])
    ensures st.result == map[] && st.pending == {}
  {
    State(PreItems(runList), map[], {})
  }

  /** A `pre` item for a node already computed is dropped (the memo hit). */
  function Pop(st: State): State
    requires st.frontier != []
  {
    st.(frontier := st.frontier[..|st.frontier| - 1])
  }

  /**
    A fresh `pre` item for `n` is replaced by n's `post` item carrying the
    reference dict, with one `pre` item per dependency above it; n becomes pending.
  */
  function Enter(st: State, n: Invocation, refs: seq<Expr>, deps: seq<Invocation>): State
    requires st.frontier != [] && |refs| == |deps|
  {
    State(st.frontier[..|st.frontier| - 1] + [Post(n, DepMap(refs, deps))] + PreItems(deps),
          st.result, st.pending + {n})
  }

  /** The `post` item for `n` is dropped, its value `v` recorded, and n is no longer pending. */
  function Finish(st: State, n: Invocation, v: int): State
    requires st.frontier != []
  {
    State(st.frontier[..|st.frontier| - 1], st.result[n := v], st.pending - {n})
  }

  /** Popping removes exactly the top item; the table and the pending set are untouched. */
  lemma PopEffect(st: State)
    requires st.frontier != []
    ensures Pop(st).frontier + [st.frontier[|st.frontier| - 1]] == st.frontier
    ensures Pop(st).result == st.result && Pop(st).pending == st.pending
  {
  }

  /**
    Entering `n` keeps every item below the top, puts a `post` item for `n`
    whose reference dict has exactly the keys `refs` where the top was, pushes
    one `pre` item per dependency in order above it (so the last dependency is
    handled first), adds `n` to the pending set and leaves the table alone.
  */
  lemma EnterEffect(st: State, n: Invocation, refs: seq<Expr>, deps: seq<Invocation>)
    requires st.frontier != [] && |refs| == |deps|
    ensures var r := Enter(st, n, refs, deps);
      && |r.frontier| == |st.frontier| + |deps|
      && r.frontier[..|st.frontier| - 1] == st.frontier[..|st.frontier| - 1]
      && r.frontier[|st.frontier| - 1].Post? && r.frontier[|st.frontier| - 1].node == n
      && (forall x :: x in r.frontier[|st.frontier| - 1].refsToDeps <==> x in refs)
      && (forall i :: 0 <= i < |deps| ==> r.frontier[|st.frontier| + i] == Pre(deps[i]))
      && r.result == st.result && r.pending == st.pending + {n}
  {
  }

  /**
    Finishing `n` with value `v` removes exactly the top item, records `n := v`
    without changing any other entry of the table, and takes `n` out of the pending set.
  */
  lemma FinishEffect(st: State, n: Invocation, v: int)
    requires st.frontier != []
    ensures var r := Finish(st, n, v);
      && r.frontier + [st.frontier[|st.frontier| - 1]] == st.frontier
      && r.result.Keys == st.result.Keys + {n} && r.result[n] == v
      && (forall m :: m in st.result && m != n ==> r.result[m] == st.result[m])
      && n !in r.pending && r.pending == st.pending - {n}
  {
  }

  /** One iteration of the `while` loop of `run`: pop the top item and handle it. */
  function Step(defs: seq<Pattern>, st: State): (r: Result<State, Error>)
    requires st.frontier != []
    ensures r.Ok? ==> st.result.Keys <= r.value.result.Keys
    ensures r.Err? && r.error.CyclicDependency? ==> r.error.invocation in st.pending
  {
    match st.frontier[|st.frontier| - 1]
    case Pre(n) =>
      if n in st.result then
        Ok(Pop(st))
      else if n in st.pending then
        Err(CyclicDependency(n))
      else
        var (refs, deps) :- ComputeDependencies(defs, n);
        Ok(Enter(st, n, refs, deps))
    case Post(n, refsToDeps) =>
      var (pat, b) :- FindAndBind(defs, n);
      var v :- Eval(pat.expr, Env(refsToDeps, st.result, b));
      Ok(Finish(st, n, v))
  }

  lemma StepHit(defs: seq<Pattern>, st: State)
    requires st.frontier != [] && st.frontier[|st.frontier| - 1].Pre?
    requires st.frontier[|st.frontier| - 1].node in st.result
    ensures Step(defs, st) == Ok(Pop(st))
  {
  }

  lemma StepEnter(defs: seq<Pattern>, st: State)
    requires st.frontier != [] && st.frontier[|st.frontier| - 1].Pre?
    requires var n := st.frontier[|st.frontier| - 1].node;
      n !in st.result && n !in st.pending && ComputeDependencies(defs, n).Ok?
    ensures var n := st.frontier[|st.frontier| - 1].node;
      var (refs, deps) := ComputeDependencies(defs, n).value;
      Step(defs, st) == Ok(Enter(st, n, refs, deps))
  {
  }

  lemma StepFinish(defs: seq<Pattern>, st: State)
    requires st.frontier != [] && st.frontier[|st.frontier| - 1].Post?
    requires var top := st.frontier[|st.frontier| - 1];
      && FindAndBind(defs, top.node).Ok?
      && Eval(FindAndBind(defs, top.node).value.0.expr,
              Env(top.refsToDeps, st.result, FindAndBind(defs, top.node).value.1)).Ok?
    ensures var top := st.frontier[|st.frontier| - 1];
      var (pat, b) := FindAndBind(defs, top.node).value;
      Step(defs, st) == Ok(Finish(st, top.node, Eval(pat.expr, Env(top.refsToDeps, st.result, b)).value))
  {
  }

  /** A `pre` item for a node that is still pending and has no value yet reports a cycle at that node. */
  lemma StepCycle(defs: seq<Pattern>, st: State)
    requires st.frontier != [] && st.frontier[|st.frontier| - 1].Pre?
    requires var n := st.frontier[|st.frontier| - 1].node; n !in st.result && n in st.pending
    ensures Step(defs, st) == Err(CyclicDependency(st.frontier[|st.frontier| - 1].node))
  {
  }

  /**
    The loop after k iterations from `st`: an error stops it for good, and
    so does an empty frontier.
  */
  function Iterate(defs: seq<Pattern>, st: State, k: nat): (r: Result<State, Error>)
    ensures r.Ok? ==> st.result.Keys <= r.value.result.Keys
  {
    if k == 0 then Ok(st)
    else
      match Iterate(defs, st, k - 1)
      case Err(e) => Err(e)
      case Ok(s) => if s.frontier == [] then Ok(s) else Step(defs, s)
  }

  /** `run` allowed at most `fuel` iterations of its loop. */
  function RunFor(defs: seq<Pattern>, runList: seq<Invocation>, fuel: nat): (o: Outcome)
    ensures o.Done? ==> o.final.frontier == []
  {
    match Iterate(defs, Initial(runList), fuel)
    case Err(e) => Failed(e)
    case Ok(s) => if s.frontier == [] then Done(s) else OutOfFuel
  }

  /** Once the loop has failed or emptied its frontier, further iterations change nothing. */
  lemma {:induction false} IterateSettles(defs: seq<Pattern>, st: State, j: nat, k: nat)
    requires j <= k
    requires Iterate(defs, st, j).Err? || Iterate(defs, st, j).value.frontier == []
    ensures Iterate(defs, st, k) == Iterate(defs, st, j)
  {
    var i := j;
    while i < k
      invariant j <= i <= k && Iterate(defs, st, i) == Iterate(defs, st, j)
    {
      var next := i + 1;
      IterateUnfold(defs, st, i, next);
      i := next;
    }
  }

  /** One more iteration: nothing after an error or an empty frontier, otherwise one `Step`. */
  lemma IterateUnfold(defs: seq<Pattern>, st0: State, j: nat, k: nat)
    requires k == j + 1
    ensures Iterate(defs, st0, j).Err? ==> Iterate(defs, st0, k) == Iterate(defs, st0, j)
    ensures Iterate(defs, st0, j).Ok? && Iterate(defs, st0, j).value.frontier == [] ==>
      Iterate(defs, st0, k) == Iterate(defs, st0, j)
    ensures Iterate(defs, st0, j).Ok? && Iterate(defs, st0, j).value.frontier != [] ==>
      Iterate(defs, st0, k) == Step(defs, Iterate(defs, st0, j).value)
  {
  }

  /** The outcome of a bounded run is read off the state after its last iteration. */
  lemma RunForAt(defs: seq<Pattern>, runList: seq<Invocation>, fuel: nat, k: nat)
    requires k <= fuel
    requires var r := Iterate(defs, Initial(runList), k); r.Err? || r.value.frontier == [] || k == fuel
    ensures RunFor(defs, runList, fuel) ==
      match Iterate(defs, Initial(runList), k)
      case Err(e) => Failed(e)
      case Ok(s) => if s.frontier == [] then Done(s) else OutOfFuel
  {
    if k < fuel {
      IterateSettles(defs, Initial(runList), k, fuel);
    }
  }
}
