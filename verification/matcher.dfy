/** Resolving a node to run to its first matching pattern, and binding its variables. */
module Matcher {
  import opened Wrappers
  import opened Ast

  /** One parameter against one argument: a variable always matches. */
  predicate ParamAccepts(p: Param, arg: int)
  {
    match p
    case Variable(_) => true
    case Literal(v) => v == arg
  }

  /**
    The `okay` loop over zip(args, params) from position i: variables are
    skipped, and the first literal that differs from its argument stops the
    scan with a rejection.
  */
  function ScanFrom(params: seq<Param>, args: seq<int>, i: nat): (okay: bool)
    requires |params| == |args| && i <= |params|
    ensures okay <==> forall j :: i <= j < |params| ==> ParamAccepts(params[j], args[j])
    decreases |params| - i
  {
    if i == |params| then true
    else if params[i].Variable? then ScanFrom(params, args, i + 1)
    else if args[i] != params[i].value then false
    else ScanFrom(params, args, i + 1)
  }

  /** `pat` has the invocation's arity and every literal parameter equals its argument. */
  predicate Accepts(pat: Pattern, inv: Invocation)
    ensures Accepts(pat, inv) <==>
      && |pat.params| == |inv.args|
      && forall i :: 0 <= i < |pat.params| ==> ParamAccepts(pat.params[i], inv.args[i])
  {
    |pat.params| == |inv.args| && ScanFrom(pat.params, inv.args, 0)
  }

  /**
    Every definition in defs[lo..hi] named like `inv` has the invocation's
    arity and rejects it: the scan passes over all of them.
  */
  ghost predicate PassedOver(defs: seq<Pattern>, inv: Invocation, lo: int, hi: int)
    requires 0 <= lo <= hi <= |defs|
  {
    forall j :: lo <= j < hi && defs[j].name == inv.name ==>
      |defs[j].params| == |inv.args| && !Accepts(defs[j], inv)
  }

  /**
    The loop of `find_pattern` from position `start`: skip other names,
    assert the arity of same-name definitions, return the first that accepts.
  */
  function FindPatternFrom(defs: seq<Pattern>, inv: Invocation, start: nat): (r: Result<Option<Pattern>, Error>)
    requires start <= |defs|
    ensures r.Ok? && r.value.Some? ==>
      exists i :: start <= i < |defs| && defs[i] == r.value.value
        && defs[i].name == inv.name && Accepts(defs[i], inv) && PassedOver(defs, inv, start, i)
    ensures r == Ok(None) <==> PassedOver(defs, inv, start, |defs|)
    ensures r.Err? ==>
      exists i :: start <= i < |defs| && r.error == ArityMismatch(inv, defs[i])
        && defs[i].name == inv.name && |defs[i].params| != |inv.args| && PassedOver(defs, inv, start, i)
    decreases |defs| - start
  {
    if start == |defs| then Ok(None)
    else
      var pat := defs[start];
      if pat.name != inv.name then FindPatternFrom(defs, inv, start + 1)
      else if |pat.params| != |inv.args| then Err(ArityMismatch(inv, pat))
      else if Accepts(pat, inv) then Ok(Some(pat))
      else FindPatternFrom(defs, inv, start + 1)
  }

  /** `find_pattern`: the first definition in declaration order that accepts `inv`. */
  function FindPattern(defs: seq<Pattern>, inv: Invocation): (r: Result<Option<Pattern>, Error>)
    ensures r.Ok? && r.value.Some? ==>
      exists i :: 0 <= i < |defs| && defs[i] == r.value.value
        && defs[i].name == inv.name && Accepts(defs[i], inv) && PassedOver(defs, inv, 0, i)
    ensures r == Ok(None) <==> PassedOver(defs, inv, 0, |defs|)
    ensures r.Err? ==>
      exists i :: 0 <= i < |defs| && r.error == ArityMismatch(inv, defs[i])
        && defs[i].name == inv.name && |defs[i].params| != |inv.args| && PassedOver(defs, inv, 0, i)
  {
    FindPatternFrom(defs, inv, 0)
  }

  /**
    First match wins: if position i is the first same-name definition that
    accepts, and none before it has the wrong arity, the search yields defs[i].
  */
  lemma FindPatternFirstMatch(defs: seq<Pattern>, inv: Invocation, i: nat)
    requires i < |defs| && defs[i].name == inv.name && Accepts(defs[i], inv)
    requires PassedOver(defs, inv, 0, i)
    ensures FindPattern(defs, inv) == Ok(Some(defs[i]))
  {
  }

  /** Is position i the last one in `params` to carry its variable name? */
  ghost predicate LastBinder(params: seq<Param>, i: int)
    requires 0 <= i < |params|
  {
    forall j :: i < j < |params| ==> params[j] != params[i]
  }

  /** The names of the variable parameters. */
  ghost function VariableNames(params: seq<Param>): set<string>
  {
    set i | 0 <= i < |params| && params[i].Variable? :: params[i].name
  }

  /**
    The binding dict comprehension over zip(params, args): pairs are added
    left to right, so a repeated variable keeps its last argument. Literal
    parameters are left out (see the README).
  */
  function Bind(params: seq<Param>, args: seq<int>): (b: map<string, int>)
    requires |params| == |args|
    ensures b.Keys == VariableNames(params)
    decreases |params|
  {
    if params == [] then map[]
    else
      var n := |params| - 1;
      assert VariableNames(params) == VariableNames(params[..n]) +
        (if params[n].Variable? then {params[n].name} else {});
      match params[n]
      case Variable(x) => Bind(params[..n], args[..n])[x := args[n]]
      case Literal(_) => Bind(params[..n], args[..n])
  }

  /** Each variable is bound to the argument at the last position that names it. */
  lemma {:induction false} BindLastWins(params: seq<Param>, args: seq<int>, i: nat)
    requires |params| == |args|
    requires i < |params| && params[i].Variable? && LastBinder(params, i)
    ensures Bind(params, args)[params[i].name] == args[i]
    decreases |params|
  {
    var n := |params| - 1;
    if i < n {
      BindLastWins(params[..n], args[..n], i);
    }
  }

  lemma BindSound(params: seq<Param>, args: seq<int>)
    requires |params| == |args|
    ensures forall i :: 0 <= i < |params| && params[i].Variable? && LastBinder(params, i) ==>
      Bind(params, args)[params[i].name] == args[i]
  {
    forall i | 0 <= i < |params| && params[i].Variable? && LastBinder(params, i) {
      BindLastWins(params, args, i);
    }
  }

  /** Without repeated names every variable parameter is bound to its own argument. */
  lemma BindPositional(params: seq<Param>, args: seq<int>)
    requires |params| == |args|
    requires forall i, j :: 0 <= i < j < |params| ==> params[i] != params[j] || params[i].Literal?
    ensures forall i :: 0 <= i < |params| && params[i].Variable? ==> Bind(params, args)[params[i].name] == args[i]
  {
    forall i | 0 <= i < |params| && params[i].Variable?
      ensures Bind(params, args)[params[i].name] == args[i]
    {
      BindLastWins(params, args, i);
    }
  }

  /**
    `find_and_bind_pattern`: the matched pattern with its bindings, or
    NoMatchingPattern when the search comes back empty.
  */
  function FindAndBind(defs: seq<Pattern>, inv: Invocation): (r: Result<(Pattern, map<string, int>), Error>)
    ensures r.Ok? ==>
      && r.value.0 in defs && r.value.0.name == inv.name && Accepts(r.value.0, inv)
      && r.value.1.Keys == VariableNames(r.value.0.params)
      && forall i :: 0 <= i < |inv.args| && r.value.0.params[i].Variable? && LastBinder(r.value.0.params, i) ==>
           r.value.1[r.value.0.params[i].name] == inv.args[i]
    ensures r == Err(NoMatchingPattern(inv)) <==> PassedOver(defs, inv, 0, |defs|)
    ensures r.Err? ==> r.error.NoMatchingPattern? || r.error.ArityMismatch?
  {
    match FindPattern(defs, inv)
    case Err(e) => Err(e)
    case Ok(None) => Err(NoMatchingPattern(inv))
    case Ok(Some(pat)) =>
      BindSound(pat.params, inv.args);
      Ok((pat, Bind(pat.params, inv.args)))
  }

  /** The pattern `find_and_bind_pattern` returns is the first one that accepts. */
  lemma FindAndBindFirstMatch(defs: seq<Pattern>, inv: Invocation)
    requires FindAndBind(defs, inv).Ok?
    ensures exists i :: 0 <= i < |defs| && defs[i] == FindAndBind(defs, inv).value.0 && PassedOver(defs, inv, 0, i)
  {
  }
}
