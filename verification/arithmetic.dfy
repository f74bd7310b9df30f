/** The integer operators of the expression language, with Python's semantics. */
module Arithmetic {
  import opened Wrappers
  import opened Ast

  /** Python's `//`: the quotient rounded toward negative infinity. */
  function FloorDiv(a: int, b: int): (q: int)
    requires b != 0
    ensures b > 0 ==> b * q <= a < b * q + b
    ensures b < 0 ==> b * q + b < a <= b * q
  {
    if b > 0 then a / b else (-a) / (-b)
  }

  /** Python's `%`: the remainder left by `//`, carrying the sign of the divisor. */
  function FloorMod(a: int, b: int): (r: int)
    requires b != 0
    ensures b > 0 ==> 0 <= r < b
    ensures b < 0 ==> b < r <= 0
    ensures a == b * FloorDiv(a, b) + r
  {
    a - b * FloorDiv(a, b)
  }

  /** The quotient `//` returns is the only one satisfying the floor bounds. */
  lemma FloorDivUnique(a: int, b: int, q: int)
    requires b != 0
    requires b > 0 ==> b * q <= a < b * q + b
    requires b < 0 ==> b * q + b < a <= b * q
    ensures q == FloorDiv(a, b)
  {
    var f := FloorDiv(a, b);
    if q < f {
      MulMonotone(b, q + 1, f);
    } else if q > f {
      MulMonotone(b, f + 1, q);
    }
  }

  lemma MulMonotone(b: int, x: int, y: int)
    requires x <= y
    ensures b > 0 ==> b * x <= b * y
    ensures b < 0 ==> b * x >= b * y
  {
    assert b * y == b * x + b * (y - x);
  }

  /** The operator callbacks `add` .. `mod`; `//` and `%` by zero raise. */
  function Apply(op: Op, a: int, b: int): (r: Result<int, Error>)
    ensures r.Err? <==> (op.Div? || op.Mod?) && b == 0
    ensures r.Err? ==> r.error == DivisionByZero
    ensures r.Ok? && op.Div? ==> r.value == FloorDiv(a, b)
    ensures r.Ok? && op.Mod? ==> r.value == FloorMod(a, b)
  {
    match op
    case Add => Ok(a + b)
    case Sub => Ok(a - b)
    case Mul => Ok(a * b)
    case Div => if b == 0 then Err(DivisionByZero) else Ok(FloorDiv(a, b))
    case Mod => if b == 0 then Err(DivisionByZero) else Ok(FloorMod(a, b))
  }
}
