/**
  The invariant the `run` loop keeps, its preservation by every iteration,
  and what it gives on completion and on a reported cycle.
*/
module Invariant {
  import opened Wrappers
  import opened Ast
  import opened Matcher
  import opened Evaluator
  import opened Scanner
  import opened Scheduler

  // ----- The frontier read from the bottom up -----

  /** The nodes of the `post` items on the frontier. */
  ghost function PostNodes(f: seq<Item>): set<Invocation>
    decreases |f|
  {
    if f == [] then {}
    else PostNodes(f[..|f| - 1]) + (if f[|f| - 1].Post? then {f[|f| - 1].node} else {})
  }

  /** No node has two `post` items on the frontier. */
  ghost predicate PostsDistinct(f: seq<Item>)
    decreases |f|
  {
    f == [] ||
    (PostsDistinct(f[..|f| - 1]) && (f[|f| - 1].Post? ==> f[|f| - 1].node !in PostNodes(f[..|f| - 1])))
  }

  /** The node of the topmost `post` item, if any. */
  ghost function LastPost(f: seq<Item>): Option<Invocation>
    decreases |f|
  {
    if f == [] then None
    else if f[|f| - 1].Post? then Some(f[|f| - 1].node)
    else LastPost(f[..|f| - 1])
  }

  /** The nodes `compute_dependencies` reports for `n` (none when it fails). */
  ghost function DepsOf(defs: seq<Pattern>, n: Invocation): seq<Invocation>
  {
    var cd := ComputeDependencies(defs, n);
    if cd.Ok? then cd.value.1 else []
  }

  /** `b` is a direct dependency of `a`. */
  ghost predicate DependsOn(defs: seq<Pattern>, a: Invocation, b: Invocation)
  {
    ComputeDependencies(defs, a).Ok? && b in DepsOf(defs, a)
  }

  /**
    The direct-dependency relation of `defs` as a value, so that the lemmas
    about paths and nesting below hold for any relation.
  */
  ghost function Deps(defs: seq<Pattern>): (Invocation, Invocation) -> bool
  {
    (a, b) => DependsOn(defs, a, b)
  }

  /** Consecutive nodes of `p` are related by `rel`. */
  ghost predicate Chain(rel: (Invocation, Invocation) -> bool, p: seq<Invocation>)
  {
    forall i :: 0 <= i < |p| - 1 ==> rel(p[i], p[i + 1])
  }

  /** Consecutive nodes of `p` are direct dependencies. */
  ghost predicate DependencyPath(defs: seq<Pattern>, p: seq<Invocation>)
  {
    Chain(Deps(defs), p)
  }

  /**
    Every item is related by `rel` (a direct dependency, in `Shape`) to the
    nearest `post` item below it: the `post` items spell out the dependency
    path being resolved.
  */
  ghost predicate WellNested(rel: (Invocation, Invocation) -> bool, f: seq<Item>)
    decreases |f|
  {
    f == [] ||
    (WellNested(rel, f[..|f| - 1]) &&
     (LastPost(f[..|f| - 1]).Some? ==> rel(LastPost(f[..|f| - 1]).value, f[|f| - 1].node)))
  }

  /** A `post` item carries exactly the reference map its node's scan produces. */
  ghost predicate PostWellFormed(defs: seq<Pattern>, item: Item)
    requires item.Post?
  {
    var cd := ComputeDependencies(defs, item.node);
    cd.Ok? && item.refsToDeps == DepMap(cd.value.0, cd.value.1)
  }

  /** `d` is computed, or some item at position `lo` or above will handle it. */
  ghost predicate Awaited(d: Invocation, st: State, lo: nat)
  {
    d in st.result || exists j :: lo <= j < |st.frontier| && st.frontier[j].node == d
  }

  /**
    The nodes `compute_dependencies` reports, as a function value, so that the
    lemmas about awaited nodes below hold for any such function.
  */
  ghost function Graph(defs: seq<Pattern>): Invocation -> seq<Invocation>
  {
    n => DepsOf(defs, n)
  }

  /** Every node `graph` lists for a `post` item is computed or awaited above it. */
  ghost predicate DepsAwaited(graph: Invocation -> seq<Invocation>, st: State)
  {
    forall i, d :: 0 <= i < |st.frontier| && st.frontier[i].Post? && d in graph(st.frontier[i].node) ==>
      Awaited(d, st, i + 1)
  }

  /** Every requested node is computed or still on the frontier. */
  ghost predicate RequestsAwaited(runList: seq<Invocation>, st: State)
  {
    forall i :: 0 <= i < |runList| ==> Awaited(runList[i], st, 0)
  }

  /**
    The cached value of `n` is the value of its first-matching pattern's
    expression, under its own bindings and reference map.
  */
  ghost predicate Justified(defs: seq<Pattern>, res: map<Invocation, int>, n: Invocation)
    requires n in res
  {
    var pb := FindAndBind(defs, n);
    var cd := ComputeDependencies(defs, n);
    && pb.Ok?
    && cd.Ok?
    && Eval(pb.value.0.expr, Env(DepMap(cd.value.0, cd.value.1), res, pb.value.1)) == Ok(res[n])
  }

  ghost predicate Consistent(defs: seq<Pattern>, res: map<Invocation, int>)
  {
    forall n {:trigger Justified(defs, res, n)} :: n in res ==> Justified(defs, res, n)
  }

  /** Every node `rel` relates a member of `s` to is a member of `s` too. */
  ghost predicate ClosedUnder(rel: (Invocation, Invocation) -> bool, s: set<Invocation>)
  {
    forall m, d :: m in s && rel(m, d) ==> d in s
  }

  /** No cycle of `rel` starts at a member of `s`. */
  ghost predicate NoCycleFrom(rel: (Invocation, Invocation) -> bool, s: set<Invocation>)
  {
    forall p {:trigger Chain(rel, p)} :: |p| >= 2 && p[0] in s && p[|p| - 1] == p[0] ==> !Chain(rel, p)
  }

  /**
    `pending` holds exactly the nodes with a `post` item on the frontier, each
    such node has one `post` item and no result yet, and the items nest along
    dependencies.
  */
  ghost predicate Shape(defs: seq<Pattern>, st: State)
  {
    && st.pending == PostNodes(st.frontier)
    && PostsDistinct(st.frontier)
    && PostNodes(st.frontier) !! st.result.Keys
    && WellNested(Deps(defs), st.frontier)
  }

  ghost predicate PostsWellFormed(defs: seq<Pattern>, f: seq<Item>)
  {
    forall i :: 0 <= i < |f| && f[i].Post? ==> PostWellFormed(defs, f[i])
  }

  /** The loop invariant of `run`. */
  ghost predicate Inv(defs: seq<Pattern>, runList: seq<Invocation>, st: State)
  {
    && Shape(defs, st)
    && PostsWellFormed(defs, st.frontier)
    && DepsAwaited(Graph(defs), st)
    && RequestsAwaited(runList, st)
    && Consistent(defs, st.result)
    && NoCycleFrom(Deps(defs), st.result.Keys)
  }

  // ----- Helpers about the frontier -----

  /** Pushing `pre` items adds no `post` node and keeps the nesting when they depend on the top `post`. */
  lemma {:induction false} AppendPres(rel: (Invocation, Invocation) -> bool, g: seq<Item>, ds: seq<Invocation>)
    requires WellNested(rel, g)
    requires LastPost(g).Some? ==> forall i :: 0 <= i < |ds| ==> rel(LastPost(g).value, ds[i])
    ensures PostNodes(g + PreItems(ds)) == PostNodes(g)
    ensures LastPost(g + PreItems(ds)) == LastPost(g)
    ensures PostsDistinct(g + PreItems(ds)) == PostsDistinct(g)
    ensures WellNested(rel, g + PreItems(ds))
    decreases |ds|
  {
    if ds == [] {
      assert g + PreItems(ds) == g;
    } else {
      var n := |ds| - 1;
      AppendPres(rel, g, ds[..n]);
      var h := g + PreItems(ds);
      var h' := g + PreItems(ds[..n]);
      assert h[..|h| - 1] == h';
      assert h[|h| - 1] == Pre(ds[n]);
      assert PostNodes(h) == PostNodes(h');
      assert LastPost(h) == LastPost(h');
      if LastPost(g).Some? {
        assert rel(LastPost(g).value, ds[n]);
      }
      assert WellNested(rel, h);
    }
  }

  /** A node in PostNodes has a `post` item at some position. */
  lemma {:induction false} PostIndex(f: seq<Item>, n: Invocation) returns (i: nat)
    requires n in PostNodes(f)
    ensures i < |f| && f[i].Post? && f[i].node == n
    decreases |f|
  {
    var k := |f| - 1;
    if f[k].Post? && f[k].node == n {
      i := k;
    } else {
      i := PostIndex(f[..k], n);
    }
  }

  /** A chain extends by one more related node at its end. */
  lemma PathSnoc(rel: (Invocation, Invocation) -> bool, q: seq<Invocation>, n: Invocation)
    requires |q| >= 1 && Chain(rel, q) && rel(q[|q| - 1], n)
    ensures Chain(rel, q + [n])
  {
    var p := q + [n];
    forall j | 0 <= j < |p| - 1
      ensures rel(p[j], p[j + 1])
    {
      if j < |q| - 1 {
        assert p[j] == q[j] && p[j + 1] == q[j + 1];
        assert rel(q[j], q[j + 1]);
      } else {
        assert p[j] == q[|q| - 1] && p[j + 1] == n;
      }
    }
  }

  /** From any `post` item up to the topmost one runs a chain of the nesting relation. */
  lemma {:induction false} PathToLastPost(rel: (Invocation, Invocation) -> bool, g: seq<Item>, i: nat) returns (p: seq<Invocation>)
    requires WellNested(rel, g) && i < |g| && g[i].Post?
    ensures LastPost(g).Some? && |p| >= 1 && p[0] == g[i].node && p[|p| - 1] == LastPost(g).value
    ensures Chain(rel, p)
    decreases |g|
  {
    var k := |g| - 1;
    if i == k {
      p := [g[i].node];
    } else {
      var h := g[..k];
      assert h[i] == g[i];
      var q := PathToLastPost(rel, h, i);
      assert g[..|g| - 1] == h;
      if g[k].Post? {
        PathSnoc(rel, q, g[k].node);
        p := q + [g[k].node];
      } else {
        p := q;
      }
    }
  }

  /** Frontier items either reach the cache or keep their node at the same position. */
  ghost predicate Carried(st: State, st': State)
  {
    && st.result.Keys <= st'.result.Keys
    && forall j :: 0 <= j < |st.frontier| ==>
         st.frontier[j].node in st'.result || (j < |st'.frontier| && st'.frontier[j].node == st.frontier[j].node)
  }

  lemma AwaitedCarried(d: Invocation, st: State, st': State, lo: nat)
    requires Carried(st, st') && Awaited(d, st, lo)
    ensures Awaited(d, st', lo)
  {
    if d !in st'.result {
      var j :| lo <= j < |st.frontier| && st.frontier[j].node == d;
      assert st.frontier[j].node !in st'.result;
    }
  }

  /** Requests and the dependencies of the `post` items kept below position k stay awaited. */
  lemma AwaitedBelow(graph: Invocation -> seq<Invocation>, runList: seq<Invocation>, st: State, st': State, k: int)
    requires Carried(st, st') && DepsAwaited(graph, st) && RequestsAwaited(runList, st)
    requires 0 <= k <= |st.frontier| && k <= |st'.frontier|
    requires forall i :: 0 <= i < k ==> st'.frontier[i] == st.frontier[i]
    requires forall i :: k <= i < |st'.frontier| && st'.frontier[i].Post? ==>
      forall d :: d in graph(st'.frontier[i].node) ==> Awaited(d, st', i + 1)
    ensures DepsAwaited(graph, st') && RequestsAwaited(runList, st')
  {
    forall i, d | 0 <= i < |st'.frontier| && st'.frontier[i].Post? && d in graph(st'.frontier[i].node)
      ensures Awaited(d, st', i + 1)
    {
      if i < k {
        AwaitedCarried(d, st, st', i + 1);
      }
    }
    forall i | 0 <= i < |runList|
      ensures Awaited(runList[i], st', 0)
    {
      AwaitedCarried(runList[i], st, st', 0);
    }
  }

  // ----- The invariant holds initially and is kept by every iteration -----

  lemma InitialShape(defs: seq<Pattern>, runList: seq<Invocation>)
    ensures Shape(defs, Initial(runList))
  {
    AppendPres(Deps(defs), [], runList);
    assert [] + PreItems(runList) == PreItems(runList);
  }

  lemma InitialInv(defs: seq<Pattern>, runList: seq<Invocation>)
    ensures Inv(defs, runList, Initial(runList))
  {
    var st := Initial(runList);
    InitialShape(defs, runList);
    assert forall i :: 0 <= i < |st.frontier| ==> st.frontier[i].Pre?;
    forall i | 0 <= i < |runList|
      ensures Awaited(runList[i], st, 0)
    {
      assert st.frontier[i].node == runList[i];
    }
  }

  lemma HitKeepsShape(defs: seq<Pattern>, st: State)
    requires Shape(defs, st) && st.frontier != [] && st.frontier[|st.frontier| - 1].Pre?
    ensures Shape(defs, Pop(st))
  {
  }

  lemma EnterKeepsShape(defs: seq<Pattern>, st: State, n: Invocation)
    requires Shape(defs, st) && st.frontier != [] && st.frontier[|st.frontier| - 1] == Pre(n)
    requires n !in st.result && n !in st.pending
    requires ComputeDependencies(defs, n).Ok?
    ensures var (refs, deps) := ComputeDependencies(defs, n).value;
      Shape(defs, Enter(st, n, refs, deps))
  {
    var (refs, deps) := ComputeDependencies(defs, n).value;
    assert forall i :: 0 <= i < |deps| ==> Deps(defs)(n, deps[i]);
    EnterRelatedKeepsShape(defs, st, n, refs, deps);
  }

  /** EnterKeepsShape for any dependency list whose nodes `n` directly depends on. */
  lemma EnterRelatedKeepsShape(defs: seq<Pattern>, st: State, n: Invocation, refs: seq<Expr>, deps: seq<Invocation>)
    requires Shape(defs, st) && st.frontier != [] && st.frontier[|st.frontier| - 1] == Pre(n)
    requires n !in st.result && n !in st.pending && |refs| == |deps|
    requires forall i :: 0 <= i < |deps| ==> Deps(defs)(n, deps[i])
    ensures Shape(defs, Enter(st, n, refs, deps))
  {
    EnterNests(Deps(defs), st.frontier, n, DepMap(refs, deps), deps);
    assert Enter(st, n, refs, deps).frontier == st.frontier[..|st.frontier| - 1] + [Post(n, DepMap(refs, deps))] + PreItems(deps);
  }

  /**
    Replacing the top `pre` item for `n` by a `post` item with `pre` items
    for nodes related to n above it adds n to the `post` nodes and keeps the nesting.
  */
  lemma EnterNests(rel: (Invocation, Invocation) -> bool, f: seq<Item>, n: Invocation,
                   m: map<Expr, Invocation>, deps: seq<Invocation>)
    requires WellNested(rel, f) && f != [] && f[|f| - 1] == Pre(n)
    requires forall i :: 0 <= i < |deps| ==> rel(n, deps[i])
    ensures var f' := f[..|f| - 1] + [Post(n, m)] + PreItems(deps);
      && PostNodes(f') == PostNodes(f) + {n}
      && (n !in PostNodes(f) && PostsDistinct(f) ==> PostsDistinct(f'))
      && WellNested(rel, f')
  {
    var k := |f| - 1;
    var g := f[..k] + [Post(n, m)];
    assert g[..|g| - 1] == f[..k] && f[..|f| - 1] == f[..k];
    assert LastPost(g) == Some(n);
    assert WellNested(rel, g);
    AppendPres(rel, g, deps);
  }

  lemma FinishKeepsShape(defs: seq<Pattern>, st: State, v: int)
    requires Shape(defs, st) && st.frontier != [] && st.frontier[|st.frontier| - 1].Post?
    ensures Shape(defs, Finish(st, st.frontier[|st.frontier| - 1].node, v))
  {
  }

  lemma HitKeepsAwaited(graph: Invocation -> seq<Invocation>, runList: seq<Invocation>, st: State)
    requires DepsAwaited(graph, st) && RequestsAwaited(runList, st)
    requires st.frontier != [] && st.frontier[|st.frontier| - 1].node in st.result
    ensures DepsAwaited(graph, Pop(st)) && RequestsAwaited(runList, Pop(st))
  {
    var k := |st.frontier| - 1;
    assert Carried(st, Pop(st));
    AwaitedBelow(graph, runList, st, Pop(st), k);
  }

  lemma FinishKeepsAwaited(graph: Invocation -> seq<Invocation>, runList: seq<Invocation>, st: State, v: int)
    requires DepsAwaited(graph, st) && RequestsAwaited(runList, st) && st.frontier != []
    ensures var st' := Finish(st, st.frontier[|st.frontier| - 1].node, v);
      DepsAwaited(graph, st') && RequestsAwaited(runList, st')
  {
    var k := |st.frontier| - 1;
    var st' := Finish(st, st.frontier[k].node, v);
    assert Carried(st, st');
    AwaitedBelow(graph, runList, st, st', k);
  }

  /** Entering `n` pushes a `pre` item above its `post` item for every node `graph` lists for it. */
  lemma EnterKeepsAwaited(graph: Invocation -> seq<Invocation>, runList: seq<Invocation>, st: State, n: Invocation,
                          refs: seq<Expr>, deps: seq<Invocation>)
    requires DepsAwaited(graph, st) && RequestsAwaited(runList, st)
    requires st.frontier != [] && st.frontier[|st.frontier| - 1] == Pre(n)
    requires |refs| == |deps| && graph(n) == deps
    ensures var st' := Enter(st, n, refs, deps);
      DepsAwaited(graph, st') && RequestsAwaited(runList, st')
  {
    var f := st.frontier;
    var k := |f| - 1;
    var st' := Enter(st, n, refs, deps);
    assert forall i :: 0 <= i < k ==> st'.frontier[i] == f[i];
    assert st'.frontier[k] == Post(n, DepMap(refs, deps));
    assert forall t :: 0 <= t < |deps| ==> st'.frontier[k + 1 + t] == Pre(deps[t]);
    assert Carried(st, st');
    forall i | k <= i < |st'.frontier| && st'.frontier[i].Post?
      ensures forall d :: d in graph(st'.frontier[i].node) ==> Awaited(d, st', i + 1)
    {
      assert i == k;
      forall d | d in graph(n)
        ensures Awaited(d, st', k + 1)
      {
        var t :| 0 <= t < |deps| && deps[t] == d;
        assert st'.frontier[k + 1 + t].node == d;
      }
    }
    AwaitedBelow(graph, runList, st, st', k);
  }

  lemma EnterKeepsWellFormed(defs: seq<Pattern>, st: State, n: Invocation)
    requires PostsWellFormed(defs, st.frontier) && st.frontier != []
    requires ComputeDependencies(defs, n).Ok?
    ensures var (refs, deps) := ComputeDependencies(defs, n).value;
      PostsWellFormed(defs, Enter(st, n, refs, deps).frontier)
  {
    var f := st.frontier;
    var k := |f| - 1;
    var (refs, deps) := ComputeDependencies(defs, n).value;
    var f' := Enter(st, n, refs, deps).frontier;
    forall i | 0 <= i < |f'| && f'[i].Post?
      ensures PostWellFormed(defs, f'[i])
    {
      if i < k {
        assert f'[i] == f[i];
      } else {
        assert i == k;
      }
    }
  }

  /** Recording the value of a `post` item keeps every cached value justified. */
  lemma FinishKeepsConsistent(defs: seq<Pattern>, st: State, b: map<string, int>, e: Expr, v: int)
    requires Consistent(defs, st.result) && st.frontier != []
    requires var top := st.frontier[|st.frontier| - 1];
      && top.Post? && top.node !in st.result && PostWellFormed(defs, top)
      && FindAndBind(defs, top.node).Ok?
      && FindAndBind(defs, top.node).value.0.expr == e && FindAndBind(defs, top.node).value.1 == b
      && Eval(e, Env(top.refsToDeps, st.result, b)) == Ok(v)
    ensures Consistent(defs, Finish(st, st.frontier[|st.frontier| - 1].node, v).result)
  {
    var top := st.frontier[|st.frontier| - 1];
    var res' := st.result[top.node := v];
    assert SubMap(st.result, res');
    forall x | x in res'
      ensures Justified(defs, res', x)
    {
      var cd := ComputeDependencies(defs, x);
      var pb := FindAndBind(defs, x);
      if x == top.node {
        EvalMonotone(e, top.refsToDeps, st.result, res', b);
      } else {
        assert Justified(defs, st.result, x);
        EvalMonotone(pb.value.0.expr, DepMap(cd.value.0, cd.value.1), st.result, res', pb.value.1);
      }
    }
  }

  /** Every successful iteration of the loop keeps the invariant. */
  lemma StepKeepsInv(defs: seq<Pattern>, runList: seq<Invocation>, st: State)
    requires Inv(defs, runList, st) && st.frontier != []
    requires Step(defs, st).Ok?
    ensures Inv(defs, runList, Step(defs, st).value)
  {
    var f := st.frontier;
    var k := |f| - 1;
    match f[k]
    case Pre(n) =>
      if n in st.result {
        StepHit(defs, st);
        HitKeepsShape(defs, st);
        HitKeepsAwaited(Graph(defs), runList, st);
      } else {
        var (refs, deps) := ComputeDependencies(defs, n).value;
        StepEnter(defs, st);
        EnterKeepsShape(defs, st, n);
        assert Graph(defs)(n) == deps;
        EnterKeepsAwaited(Graph(defs), runList, st, n, refs, deps);
        EnterKeepsWellFormed(defs, st, n);
      }
    case Post(n, m) =>
      var (pat, b) := FindAndBind(defs, n).value;
      var v := Eval(pat.expr, Env(m, st.result, b)).value;
      StepFinish(defs, st);
      assert n in PostNodes(f) by {
        assert f[..|f| - 1] == f[..k];
      }
      FinishKeepsShape(defs, st, v);
      FinishKeepsAwaited(Graph(defs), runList, st, v);
      FinishKeepsConsistent(defs, st, b, pat.expr, v);
      PostRunsAfterDeps(defs, runList, st);
      FinishKeepsAcyclic(defs, st.result, n, v);
  }

  // ----- What the invariant gives -----

  /**
    The memo is append-only: an iteration either leaves `result` alone or
    adds the value of the node it finished, which had no value before.
  */
  lemma StepNeverOverwrites(defs: seq<Pattern>, st: State)
    requires Shape(defs, st) && st.frontier != []
    requires Step(defs, st).Ok?
    ensures SubMap(st.result, Step(defs, st).value.result)
    ensures var top := st.frontier[|st.frontier| - 1];
      Step(defs, st).value.result == st.result ||
      (top.Post? && top.node !in st.result && Step(defs, st).value.result.Keys == st.result.Keys + {top.node})
  {
    var f := st.frontier;
    var k := |f| - 1;
    match f[k]
    case Pre(n) =>
      if n in st.result {
        StepHit(defs, st);
      } else {
        var (refs, deps) := ComputeDependencies(defs, n).value;
        StepEnter(defs, st);
      }
    case Post(n, m) =>
      var (pat, b) := FindAndBind(defs, n).value;
      var v := Eval(pat.expr, Env(m, st.result, b)).value;
      StepFinish(defs, st);
      assert f[..|f| - 1] == f[..k];
      assert n in PostNodes(f);
  }

  /** When a `post` item is popped, every node it depends on already has its value. */
  lemma PostRunsAfterDeps(defs: seq<Pattern>, runList: seq<Invocation>, st: State)
    requires Inv(defs, runList, st) && st.frontier != []
    requires st.frontier[|st.frontier| - 1].Post?
    ensures var top := st.frontier[|st.frontier| - 1];
      && (forall d :: d in DepsOf(defs, top.node) ==> d in st.result)
      && (forall r :: r in top.refsToDeps ==> top.refsToDeps[r] in st.result)
  {
    var k := |st.frontier| - 1;
    var top := st.frontier[k];
    forall d | d in DepsOf(defs, top.node)
      ensures d in st.result
    {
      assert Graph(defs)(top.node) == DepsOf(defs, top.node);
      assert Awaited(d, st, k + 1);
    }
    assert PostWellFormed(defs, st.frontier[k]);
    var cd := ComputeDependencies(defs, top.node).value;
    DepMapRange(cd.0, cd.1);
  }

  /** Only a `pre` item for a pending node reports a cycle. */
  lemma CycleOnlyOnPendingPre(defs: seq<Pattern>, st: State, n: Invocation)
    requires st.frontier != []
    requires Step(defs, st) == Err(CyclicDependency(n))
    ensures st.frontier[|st.frontier| - 1] == Pre(n) && n in st.pending
  {
  }

  /**
    Cycle reports are sound: when an iteration fails with CyclicDependency(n),
    n genuinely depends on itself through a chain of direct dependencies.
  */
  lemma CycleIsGenuine(defs: seq<Pattern>, st: State, n: Invocation)
    requires Shape(defs, st) && st.frontier != []
    requires Step(defs, st) == Err(CyclicDependency(n))
    ensures exists p :: |p| >= 2 && p[0] == n && p[|p| - 1] == n && DependencyPath(defs, p)
  {
    CycleOnlyOnPendingPre(defs, st, n);
    PendingPreIsCyclic(defs, st, n);
  }

  /** A `pre` item for a pending node closes a chain of dependencies back to that node. */
  lemma PendingPreIsCyclic(defs: seq<Pattern>, st: State, n: Invocation)
    requires Shape(defs, st) && st.frontier != []
    requires st.frontier[|st.frontier| - 1] == Pre(n) && n in st.pending
    ensures exists p :: |p| >= 2 && p[0] == n && p[|p| - 1] == n && DependencyPath(defs, p)
  {
    var f := st.frontier;
    var k := |f| - 1;
    var rest := f[..k];
    assert f[..|f| - 1] == rest;
    assert n in PostNodes(rest);
    var i := PostIndex(rest, n);
    var q := PathToLastPost(Deps(defs), rest, i);
    assert DependsOn(defs, q[|q| - 1], n);
    PathSnoc(Deps(defs), q, n);
    var p := q + [n];
    assert p[0] == n && p[|p| - 1] == n;
  }

  /** A consistent cache holds the dependencies of every node it holds. */
  lemma ConsistentIsClosed(defs: seq<Pattern>, res: map<Invocation, int>)
    requires Consistent(defs, res)
    ensures forall n, d :: n in res && d in DepsOf(defs, n) ==> d in res
  {
    forall n, d | n in res && d in DepsOf(defs, n)
      ensures d in res
    {
      assert Justified(defs, res, n);
      var (pat, b) := FindAndBind(defs, n).value;
      var (refs, deps) := ComputeDependencies(defs, n).value;
      var m := DepMap(refs, deps);
      EvalResolvesRefs(pat.expr, Env(m, res, b));
      DepMapAgrees(refs, deps);
      var t :| 0 <= t < |deps| && deps[t] == d;
      assert refs[t] in Refs(pat.expr);
    }
  }

  /** Starting inside a set closed under `rel`, a chain of `rel` never leaves it. */
  lemma {:induction false} ChainStaysIn(rel: (Invocation, Invocation) -> bool, s: set<Invocation>,
                                        p: seq<Invocation>, i: nat)
    requires ClosedUnder(rel, s) && Chain(rel, p)
    requires i < |p| && p[0] in s
    ensures p[i] in s
  {
    if i > 0 {
      var h: nat := i - 1;
      ChainStaysIn(rel, s, p, h);
      assert rel(p[h], p[h + 1]);
    }
  }

  /**
    Adding a node whose successors are all in a closed, cycle-free set keeps
    it cycle-free: a cycle through the new node would have to come back to it
    from inside the set, which it cannot leave.
  */
  lemma ExtendNoCycle(rel: (Invocation, Invocation) -> bool, s: set<Invocation>, n: Invocation)
    requires NoCycleFrom(rel, s) && ClosedUnder(rel, s)
    requires n !in s && forall d :: rel(n, d) ==> d in s
    ensures NoCycleFrom(rel, s + {n})
  {
    forall p | |p| >= 2 && p[0] in s + {n} && p[|p| - 1] == p[0]
      ensures !Chain(rel, p)
    {
      if Chain(rel, p) && p[0] !in s {
        assert rel(p[0], p[1]);
        var q := p[1..];
        forall i | 0 <= i < |q| - 1
          ensures rel(q[i], q[i + 1])
        {
          var j := i + 1;
          assert q[i] == p[j] && q[i + 1] == p[j + 1];
          assert rel(p[j], p[j + 1]);
        }
        assert q[|q| - 1] == n;
        ChainStaysIn(rel, s, q, |q| - 1);
      }
    }
  }

  /**
    Recording a value for a node with no value yet, whose dependencies all
    have values, keeps a consistent table free of dependency cycles.
  */
  lemma FinishKeepsAcyclic(defs: seq<Pattern>, res: map<Invocation, int>, n: Invocation, v: int)
    requires Consistent(defs, res) && NoCycleFrom(Deps(defs), res.Keys)
    requires n !in res && forall d :: d in DepsOf(defs, n) ==> d in res
    ensures NoCycleFrom(Deps(defs), res[n := v].Keys)
  {
    ConsistentIsClosed(defs, res);
    var rel := Deps(defs);
    forall m, d | m in res.Keys && rel(m, d)
      ensures d in res.Keys
    {
      assert d in DepsOf(defs, m);
    }
    forall d | rel(n, d)
      ensures d in res.Keys
    {
      assert d in DepsOf(defs, n);
    }
    ExtendNoCycle(rel, res.Keys, n);
    assert res[n := v].Keys == res.Keys + {n};
  }

  lemma SubMapTrans<K, V>(a: map<K, V>, b: map<K, V>, c: map<K, V>)
    requires SubMap(a, b) && SubMap(b, c)
    ensures SubMap(a, c)
  {
  }

  /** Every state the loop reaches keeps the invariant. */
  lemma {:induction false} ReachedInv(defs: seq<Pattern>, runList: seq<Invocation>, k: nat, st: State)
    requires Iterate(defs, Initial(runList), k) == Ok(st)
    ensures Inv(defs, runList, st)
  {
    if k == 0 {
      InitialInv(defs, runList);
    } else {
      var j: nat := k - 1;
      IterateUnfold(defs, Initial(runList), j, k);
      var s := Iterate(defs, Initial(runList), j).value;
      ReachedInv(defs, runList, j, s);
      if s.frontier != [] {
        StepKeepsInv(defs, runList, s);
      }
    }
  }

  /** One iteration of the loop keeps every value already computed. */
  lemma IterateStepNeverOverwrites(defs: seq<Pattern>, runList: seq<Invocation>, j: nat, k: nat)
    requires k == j + 1 && Iterate(defs, Initial(runList), k).Ok?
    ensures Iterate(defs, Initial(runList), j).Ok?
    ensures SubMap(Iterate(defs, Initial(runList), j).value.result, Iterate(defs, Initial(runList), k).value.result)
  {
    IterateUnfold(defs, Initial(runList), j, k);
    var s := Iterate(defs, Initial(runList), j).value;
    if s.frontier != [] {
      ReachedInv(defs, runList, j, s);
      StepNeverOverwrites(defs, s);
    }
  }

  /** Along a run the memo only grows: no iteration drops or changes a computed value. */
  lemma {:induction false} IterateNeverOverwrites(defs: seq<Pattern>, runList: seq<Invocation>, i: nat, k: nat)
    requires i <= k && Iterate(defs, Initial(runList), k).Ok?
    ensures Iterate(defs, Initial(runList), i).Ok?
    ensures SubMap(Iterate(defs, Initial(runList), i).value.result, Iterate(defs, Initial(runList), k).value.result)
  {
    var last := Iterate(defs, Initial(runList), k).value.result;
    var j := k;
    while j > i
      invariant i <= j <= k && Iterate(defs, Initial(runList), j).Ok?
      invariant SubMap(Iterate(defs, Initial(runList), j).value.result, last)
    {
      var h: nat := j - 1;
      IterateStepNeverOverwrites(defs, runList, h, j);
      SubMapTrans(Iterate(defs, Initial(runList), h).value.result,
                  Iterate(defs, Initial(runList), j).value.result, last);
      j := h;
    }
  }

  /**
    A run that completes leaves nothing pending, has a value for every
    requested node, every value it holds is justified by the node's
    pattern, and no dependency cycle passes through a node it holds.
  */
  lemma RunForSound(defs: seq<Pattern>, runList: seq<Invocation>, fuel: nat)
    ensures var o := RunFor(defs, runList, fuel);
      o.Done? ==>
        && o.final.pending == {}
        && (forall i :: 0 <= i < |runList| ==> runList[i] in o.final.result)
        && Consistent(defs, o.final.result)
        && (forall n, p :: n in o.final.result && |p| >= 2 && p[0] == n && p[|p| - 1] == n ==>
              !DependencyPath(defs, p))
  {
    if RunFor(defs, runList, fuel).Done? {
      var st := Iterate(defs, Initial(runList), fuel).value;
      ReachedInv(defs, runList, fuel, st);
      forall i | 0 <= i < |runList|
        ensures runList[i] in st.result
      {
        assert Awaited(runList[i], st, 0);
      }
    }
  }

  /** A run that stops on CyclicDependency(n) stopped on a genuine cycle through n. */
  lemma {:induction false} IterateCycleGenuine(defs: seq<Pattern>, runList: seq<Invocation>, k: nat, n: Invocation)
    requires Iterate(defs, Initial(runList), k) == Err(CyclicDependency(n))
    ensures exists p :: |p| >= 2 && p[0] == n && p[|p| - 1] == n && DependencyPath(defs, p)
  {
    var j: nat := k - 1;
    IterateUnfold(defs, Initial(runList), j, k);
    var prev := Iterate(defs, Initial(runList), j);
    if prev.Err? {
      IterateCycleGenuine(defs, runList, j, n);
    } else {
      ReachedInv(defs, runList, j, prev.value);
      CycleIsGenuine(defs, prev.value, n);
    }
  }

  /** Cycle reports of a bounded run are sound. */
  lemma RunForCycleGenuine(defs: seq<Pattern>, runList: seq<Invocation>, fuel: nat)
    ensures var o := RunFor(defs, runList, fuel);
      o.Failed? && o.error.CyclicDependency? ==>
        exists p :: |p| >= 2 && p[0] == o.error.invocation && p[|p| - 1] == o.error.invocation
          && DependencyPath(defs, p)
  {
    var o := RunFor(defs, runList, fuel);
    if o.Failed? && o.error.CyclicDependency? {
      IterateCycleGenuine(defs, runList, fuel, o.error.invocation);
    }
  }
}
