/** `run`: the explicit-stack loop over the frontier, bounded by a fuel count. */
module Engine {
  import opened Wrappers
  import opened Ast
  import opened Evaluator
  import opened Scheduler
  import opened Invariant

  /**
    Pops and handles frontier items until the frontier is empty, an error
    aborts the run, or `fuel` iterations have been spent.
  */
  method Run(defs: seq<Pattern>, runList: seq<Invocation>, fuel: nat) returns (o: Outcome)
    ensures o == RunFor(defs, runList, fuel)
    ensures o.Done? ==> o.final.pending == {} && o.final.frontier == []
    ensures o.Done? ==> forall i :: 0 <= i < |runList| ==> runList[i] in o.final.result
    ensures o.Done? ==> Consistent(defs, o.final.result)
    ensures o.Done? ==> forall n, p :: n in o.final.result && |p| >= 2 && p[0] == n && p[|p| - 1] == n ==>
      !DependencyPath(defs, p)
    ensures o.Failed? && o.error.CyclicDependency? ==>
      exists p :: |p| >= 2 && p[0] == o.error.invocation && p[|p| - 1] == o.error.invocation
        && DependencyPath(defs, p)
  {
    var st := Initial(runList);
    var failure: Option<Error> := None;
    var k := 0;
    assert Iterate(defs, st, 0) == Ok(st);
    while failure.None? && st.frontier != [] && k < fuel
      invariant k <= fuel
      invariant Iterate(defs, Initial(runList), k) == if failure.Some? then Err(failure.value) else Ok(st)
      decreases fuel - k
    {
      var next := Step(defs, st);
      IterateUnfold(defs, Initial(runList), k, k + 1);
      if next.Err? {
        failure := Some(next.error);
      } else {
        st := next.value;
      }
      k := k + 1;
    }
    RunForAt(defs, runList, fuel, k);
    o := if failure.Some? then Failed(failure.value) else if st.frontier == [] then Done(st) else OutOfFuel;
    RunForSound(defs, runList, fuel);
    RunForCycleGenuine(defs, runList, fuel);
  }
}
