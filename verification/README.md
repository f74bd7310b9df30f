# hippo evaluation engine, in Dafny

hippo is a small first-order rewrite-rule language. A program is an ordered
list of definitions such as `fib 0 = 0` or `fib n = [a n]` and a `RUN` line
of invocations such as `[fib 10]`. This project models the engine that
`hippo.py` runs once the lark parser has built those values. The model has
five parts:

- **Pattern matching** (`find_pattern`, `find_and_bind_pattern`): an invocation
  resolves to the first definition, in declaration order, whose literal
  parameters equal its arguments. That definition's variables are bound
  positionally.
- **Shallow dependency scan** (`find_references_no_nesting`,
  `compute_dependencies`): the scan collects the references an expression
  contains, without looking inside a reference's own arguments. Each
  reference becomes a concrete node to run, with its arguments evaluated
  under the bindings alone.
- **Integer evaluator** (`EvalTransformer`): literals, variables, references
  resolved through the reference map and then the result cache, and
  `+ - * / %` with Python's floor semantics.
- **Explicit-stack scheduler** (`run`): a depth-first worklist of `pre` and
  `post` items, with a memo table `result` and a `pending` set that detects
  cycles.
- **The demonstration programs** of `hippo.py`: `program_a`,
  `program_cycle`, `program_nested_ref` and `program_nat_bad`, written as
  the values the parser would produce.

Modules follow the engine's structure:

| module | contents |
|---|---|
| `Wrappers` | `Option` and `Result` |
| `Ast` | the records the parser produces |
| `Arithmetic` | floor division and modulo |
| `Matcher` | pattern matching |
| `Evaluator` | `EvalTransformer` |
| `Scanner` | the dependency scan |
| `Scheduler` | one iteration of the `run` loop, and bounded runs |
| `Invariant` | the loop invariant and what it gives |
| `Denotation` | what a finished result table means |
| `Engine` | `run` as a loop |
| `Examples`, `Runs` | the demonstration programs |

Errors are values of `Ast.Error`, one constructor per way the engine aborts:

| constructor | source |
|---|---|
| `ArityMismatch` | the arity `assert` in `find_pattern` |
| `NoMatchingPattern` | "Unable to find pattern" |
| `CyclicDependency` | "Found cyclic dependency" |
| `UnresolvedReference` | "possible nested reference" |
| `MissingResult` | "No result for" a node to run |
| `UnboundVariable` | "Unrecognized item" |
| `DivisionByZero` | `//` or `%` by zero |

`run` itself never terminates on some programs. It is therefore modelled as
`Scheduler.RunFor(defs, runList, fuel)`, which performs at most `fuel` loop
iterations. A run ends as one of:

- `Done(final)`: the frontier emptied; `final.result` is what `run` returns.
- `Failed(error)`: an iteration raised.
- `OutOfFuel`: the bound was reached first.

## Model

| member | source | states |
|---|---|---|
| Arithmetic.FloorDiv | hippo.py:331-332 | the quotient of `//` is the floor of a / b: b·q ≤ a < b·q + b for a positive divisor, mirrored for a negative one |
| Arithmetic.FloorMod | hippo.py:334-335 | the remainder of `%` has the sign of the divisor, is smaller than it in magnitude, and satisfies a = b·(a // b) + r |
| Arithmetic.FloorDivUnique | hippo.py:331-332 | any q within the floor bounds equals a // b, so `FloorDiv` is the floor quotient and nothing else |
| Arithmetic.Apply | hippo.py:319-335 | an operator callback fails exactly for `/` or `%` by zero, with DivisionByZero; otherwise `/` and `%` give the floor quotient and remainder |
| Evaluator.Lookup | hippo.py:289-309 | looking up a leaf fails only with the miss of that leaf itself, never with DivisionByZero: UnboundVariable of its own variable when it is unbound, UnresolvedReference of the reference itself when it is absent from the reference map, or MissingResult of its mapped node when that node has no result. A successful lookup gives the leaf's order-free value |
| Evaluator.Eval | hippo.py:311-335 | a failure is a miss the environment really has (some variable unbound, some reference unmapped, or some mapped node without a result), or DivisionByZero only when the expression has a `//` or `%` node whose right operand is valued 0. A success gives the order-free value, and a literal evaluates to itself. Where in the expression the failure arises is stated by Evaluator.EvalErrorLocated |
| Evaluator.EvalErrorLocated | hippo.py:289-335 | every evaluation error arises at a definite place in the expression. It is either a leaf whose own lookup misses with exactly that error, or a `//` or `%` node whose right operand is valued 0 |
| Evaluator.EvalAgreesWithValue | hippo.py:311-335 | whether evaluation succeeds, and its value, do not depend on the order in which operands are visited; they agree with the order-free reading `Value` |
| Evaluator.EvalMonotone | hippo.py:300-304 | a successful evaluation keeps its value when entries are added to the result table |
| Matcher.FindPatternFrom | hippo.py:149-173 | returns the first same-name definition that accepts the arguments, after passing over only same-name, same-arity definitions that reject them; returns None exactly when every same-name definition has the right arity and rejects; fails with ArityMismatch at the first same-name definition of another arity |
| Matcher.FindPattern | hippo.py:149-173 | the scan over the whole program: the first same-name definition that accepts, None exactly when every same-name definition has the right arity and rejects, ArityMismatch at the first same-name definition of another arity |
| Matcher.ScanFrom | hippo.py:157-168 | the `okay` loop, which skips variables and stops at the first literal that differs from its argument, accepts exactly when every parameter from position i on accepts its argument |
| Matcher.Accepts | hippo.py:155-170 | a definition accepts an invocation exactly when it has the invocation's arity and each literal parameter equals the argument at its position |
| Matcher.FindPatternFirstMatch | hippo.py:149-173 | the first accepting same-name definition, with no arity mismatch before it, is the one returned |
| Matcher.Bind | hippo.py:202 | the binding map's keys are exactly the variable parameters' names |
| Matcher.BindLastWins | hippo.py:202 | a variable is bound to the argument at the last position that names it, as the dict comprehension keeps the last pair |
| Matcher.BindSound | hippo.py:202 | every variable, at its last position, is bound to that position's argument |
| Matcher.BindPositional | hippo.py:202 | without repeated variable names, every variable parameter is bound to the argument at its own position |
| Matcher.FindAndBind | hippo.py:186-204 | on success: a definition of the program with the invocation's name that accepts it, and bindings over exactly its variable names, each bound to the argument at the last position naming it; NoMatchingPattern exactly when no same-name definition qualifies |
| Matcher.FindAndBindFirstMatch | hippo.py:196-199 | the returned definition is preceded only by definitions that are passed over |
| Scanner.Refs | hippo.py:176-183 | every element of the scan is a reference reached through operator operands only |
| Scanner.RefsAreOrderedLeaves | hippo.py:176-183 | the scan is the operator tree's operands flattened left to right, filtered to the references: same order, same repetitions |
| Scanner.RefsComplete | hippo.py:176-183 | every reference reached through operator operands only is found by the scan |
| Scanner.EvalResolvesRefs | hippo.py:293-304 | a successful evaluation has found every scanned reference in the reference map and its node in the result table |
| Scanner.EvalWithoutRefs | hippo.py:289-309 | an expression without references evaluates the same under any tables with the same bindings |
| Scanner.NestedReferenceFails | hippo.py:216-221 | an argument containing a reference cannot be evaluated under the bindings alone |
| Scanner.EvalArgs | hippo.py:221 | the argument tuple is computed exactly when every argument evaluates under the bindings alone, and then it holds their values, position by position. A failure is a lookup miss or a zero divisor that the environment really has and one of the arguments can raise. Which argument fails is stated by Scanner.EvalArgsFirstError |
| Scanner.EvalArgsFirstError | hippo.py:221 | a failed argument tuple reports the error of its first failing argument, and that error arises at a definite leaf or zero divisor of that argument |
| Scanner.EvalRefs | hippo.py:218-222 | one node to run per reference, in order, carrying the reference's name and evaluated arguments. It fails exactly when some reference's arguments fail, and the failure is a lookup miss or a zero divisor that an argument of one of the references can raise. Which reference fails is stated by Scanner.EvalRefsFirstError |
| Scanner.EvalRefsFirstError | hippo.py:218-222 | a failed scan reports the error of the first reference whose argument tuple fails |
| Scanner.ComputeDependencies | hippo.py:207-224 | a match failure is passed on unchanged. Any other failure comes from evaluating an argument of a scanned reference under the bindings; it is a lookup miss or a zero divisor, never a cycle. On success, the references are the scan of the matched expression and there is one node per reference. Where the failure arises is stated by Scanner.ComputeDependenciesErrorLocated |
| Scanner.ComputeDependenciesErrorLocated | hippo.py:207-224 | when the pattern matched but the dependencies could not be computed, the error arises at a definite leaf or zero divisor of some argument of a scanned reference, evaluated under the bindings alone |
| Scanner.ComputeDependenciesSound | hippo.py:218-224 | node i has reference i's name and arguments evaluated under the bindings, so equal references yield equal nodes |
| Scanner.NestedReferenceRejected | hippo.py:207-224 | if any argument of a scanned reference contains a reference, computing the dependencies fails |
| Scanner.DepMap | hippo.py:258 | the reference dict's keys are exactly the scanned references |
| Scanner.DepMapRange | hippo.py:258 | the reference dict maps only to the computed dependencies |
| Scanner.DepMapAgrees | hippo.py:258 | when equal references carry equal nodes, the dict maps every reference to its own node |
| Scheduler.Initial | hippo.py:229-236 | the frontier starts as one `pre` item per request in request order, so the last request is handled first; the table and `pending` start empty |
| Scheduler.PreItems | hippo.py:236 | one `pre` item per requested node, in order |
| Scheduler.PopEffect | hippo.py:238-248 | the memo hit removes exactly the popped top item; the table and `pending` are unchanged |
| Scheduler.EnterEffect | hippo.py:238-264 | entering a node keeps every item below the popped one. In its place goes a `post` item for the node, whose reference dict has exactly the scanned references as keys. Above it goes one `pre` item per dependency, in order, so the last dependency is handled first. The node becomes pending, and the table is unchanged |
| Scheduler.FinishEffect | hippo.py:266-278 | finishing removes exactly the popped `post` item. It records the node's value without changing any other entry of the table, and takes the node out of `pending` |
| Scheduler.Step | hippo.py:237-278 | an iteration only adds keys to the memo, and a cycle is reported only for a node that is pending |
| Scheduler.StepHit | hippo.py:245-248 | branch lemma of `Step`, used by the invariant proofs: a `pre` item for a node already computed is dropped with nothing else changed |
| Scheduler.StepEnter | hippo.py:250-264 | branch lemma of `Step`, used by the concrete runs: a `pre` item for a fresh node becomes its `post` item with the reference dict, under one `pre` item per dependency, and the node becomes pending |
| Scheduler.StepCycle | hippo.py:250-252 | branch lemma of `Step`: a `pre` item for a node that is pending and has no value fails with CyclicDependency at that node |
| Scheduler.StepFinish | hippo.py:266-278 | branch lemma of `Step`, used by the concrete runs: a `post` item is dropped, its node's value recorded, and the node is no longer pending |
| Scheduler.Iterate | hippo.py:237-280 | repeated iterations only add keys to the memo |
| Scheduler.IterateUnfold | hippo.py:237-238 | the loop stops on an error or an empty frontier; otherwise one more iteration is one `Step` |
| Scheduler.IterateSettles | hippo.py:237 | once the loop has failed or emptied its frontier, further iterations change nothing |
| Scheduler.RunFor | hippo.py:227-280 | a completed run has an empty frontier |
| Scheduler.RunForAt | hippo.py:237-280 | the outcome of a bounded run can be read off any iteration at which the loop stopped |
| Invariant.InitialInv | hippo.py:229-236 | the loop invariant holds before the first iteration |
| Invariant.StepKeepsInv | hippo.py:237-278 | every successful iteration keeps the loop invariant. Its parts: `pending` is exactly the set of nodes with a `post` item, with one item each and no value yet; the items nest along direct dependencies; each `post` item carries its node's reference dict; each dependency of a `post` item and each request is computed or still above it; every cached value is its pattern's evaluation; no chain of direct dependencies leads from a cached node back to itself |
| Invariant.ReachedInv | hippo.py:231-233 | every state the loop reaches satisfies the invariant, in particular n is pending iff a `post` item for n is on the frontier |
| Invariant.StepNeverOverwrites | hippo.py:245-248 | an iteration never changes a cached value; it adds at most the node whose `post` item it handled, which had no value before |
| Invariant.IterateNeverOverwrites | hippo.py:278 | across any number of iterations the memo only grows and no entry is ever overwritten |
| Invariant.PostRunsAfterDeps | hippo.py:272-275 | when a `post` item is handled, every dependency of its node, and every node its reference dict names, is already in the result table |
| Invariant.ConsistentIsClosed | hippo.py:272-278 | a consistent table holds every dependency of every node it holds |
| Invariant.CycleIsGenuine | hippo.py:250-252 | a reported CyclicDependency(n) comes with a chain of direct dependencies from n back to n |
| Invariant.PendingPreIsCyclic | hippo.py:250-253 | a `pre` item for a pending node closes a dependency chain back to that node |
| Invariant.RunForSound | hippo.py:227-280 | a completed run leaves `pending` empty, holds every requested node, every value in it is the evaluation of its node's first-matching pattern under its bindings and reference dict, and no dependency cycle passes through a node it holds |
| Invariant.FinishKeepsAcyclic | hippo.py:272-278 | recording a node whose dependencies all have values keeps the table free of dependency cycles |
| Invariant.FinishKeepsConsistent | hippo.py:274-278 | recording the value of a `post` item keeps every cached value equal to its pattern's evaluation |
| Invariant.IterateCycleGenuine | hippo.py:250-252 | whenever the loop stops with CyclicDependency(n), a dependency chain leads from n back to n |
| Invariant.RunForCycleGenuine | hippo.py:250-252 | a run that fails with CyclicDependency(n) has a dependency chain from n back to n |
| Denotation.DenoteMatchesValue | hippo.py:207-224 | evaluating through the reference dict that the scan builds is reading each reference as the node its own arguments name |
| Denotation.ConsistentDenotes | hippo.py:272-278 | in a completed table, each value is its pattern's expression with every reference read as the table entry of the node it names |
| Engine.Run | hippo.py:227-280 | the loop computes the bounded run. If it completes, `pending` is empty, every request is computed, every value is justified, and no node of the table lies on a dependency cycle. A cycle it reports is a genuine dependency cycle |
| Examples.FibTable | hippo.py:13-19 | in any consistent table for `program_a`, `fib n` holds the n-th Fibonacci number |
| Examples.BarTable | hippo.py:21 | `bar m n` equals `fib n` for any m |
| Examples.FooTable | hippo.py:23 | `foo n` is (3n + 4(n − 1)) floor-divided by 2 |
| Examples.ZarTable | hippo.py:25 | `zar x y` needs `foo x` and `foo y`, has a non-zero divisor, and is the floor quotient of x·y by x + y·(foo x + foo y) |
| Examples.ProgramAValues | hippo.py:11-27 | the four requests of `program_a` are fib 10 = 55, bar 0 1 = 1, foo 7 = 22 and zar 8 6 = 0 in any consistent table that holds them |
| Examples.RunProgramA | hippo.py:72-85 | if `run` completes on `program_a`, it reports 55, 1, 22 and 0 |
| Runs.FooSevenRun | hippo.py:23 | requesting `foo 7` completes in two iterations with the table {foo 7: 22} |
| Runs.CycleRun | hippo.py:30-37 | `program_cycle` fails with a cyclic dependency at `cycle 199` on the third iteration |
| Runs.NestedRun | hippo.py:39-47 | `program_nested_ref` fails on the first iteration: the inner reference `[b x]` is unresolved |
| Runs.NatZeroShadowed | hippo.py:49-53 | with the variable clause first, `nat 0` is never chosen, even for the argument 0 |
| Runs.NatBadIterate | hippo.py:49-56 | after k iterations on `program_nat_bad` the frontier holds k pending `post` items and a `pre` item for `nat (10 − k)` |
| Runs.NatBadDiverges | hippo.py:109-114 | `run` on `program_nat_bad` never completes, whatever the bound |
| Runs.NatGoodTable | hippo.py:51-53 | with the base clause listed first, `nat n` is n in any consistent table |
| Runs.NatGoodRun | hippo.py:51-53 | with the base clause first, `run` on `[nat 3]` completes in eight iterations with nat 0..3 valued 0..3 |
| Runs.RunNatGood | hippo.py:51-53 | with the base clause first, `run` on `[nat 3]` completes within eight iterations and, whenever it completes, reports 3 |

## Left out

- The lark parser, the grammar file, `MyTransformer` and `parse` (hippo.py:9, 118-139, 338-371) are not part of this model. Definitions and requests are given as already built `Ast` values. In the example programs, an operator tree follows the usual precedence of `*`, `/` over `+`, `-`, because the grammar file is not available to confirm it.
- File loading, printing and the command line (`run_program`, `__main__`, the `debug` prints) are left out: they are I/O around the engine.
- The demonstration drivers (hippo.py:59-114) are not modelled as code. Their programs appear as the concrete lemmas in `Examples` and `Runs`.
- Python's runtime type checks (`assert(type(arg) is int)`, the `isinstance` dispatch) are replaced by the tagged `Ast.Expr` datatype. A node to run never occurs inside an expression, so `_lookup`'s direct `NodeToRun` case is reached only through the reference map.
- The exception text and class, and lark's wrapping of callback exceptions in `VisitError`, are left out. Each failure is modelled by its `Ast.Error` constructor.
- The binding dict also holds literal parameters as integer keys. Those keys are unobservable, since `_lookup` returns an integer before consulting the bindings, so `Matcher.Bind` maps variable names only.
- `pending.remove` raising KeyError is not modelled. The invariant proves the popped `post` node is always pending, and `Scheduler.Finish` removes it.
- `pending.add` happens before `compute_dependencies` in the source. If that call raises, the run aborts either way, so `Scheduler.Step` adds the node after the call.
- Termination is not claimed. `run` is bounded by a fuel count, and `Scheduler.RunFor` reports `OutOfFuel` when the bound is reached first.
- Examples.RunProgramA: states the values `program_a` reports when its run completes, not that it completes. Completion within a given bound would need an iteration-by-iteration trace of the whole run, as `Runs.NatGoodRun` gives for `nat 3`.
- Scheduler.RunFor: its own contract states only that a completed run has an empty frontier. What a completed run computes is stated by Invariant.RunForSound and Engine.Run.
