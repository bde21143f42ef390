/**
 * How the position's arithmetic treats JavaScript numbers.
 *
 * A stored price or total is a finite number (`real`). A computed metric can
 * in addition divide by zero, which in JavaScript yields Infinity, -Infinity
 * or NaN; those three are collapsed into `NonFinite`. `null` and the empty
 * string both become 0 when they meet an arithmetic operator.
 */
module Numbers {
  import opened Wrappers

  /** A number a metric may produce: finite, or one of Infinity, -Infinity, NaN. */
  datatype Value = Finite(x: real) | NonFinite

  /** An amount field: the empty-string sentinel `""` (not entered) or a number. */
  datatype Amount = Blank | Amount(x: real)

  /** `+a` for an amount field: the empty string converts to 0. */
  function OfAmount(a: Amount): real {
    match a
    case Blank => 0.0
    case Amount(x) => x
  }

  /** `+v` for a number-or-null field: null converts to 0. */
  function OfOptional(v: Option<real>): real {
    v.GetOr(0.0)
  }

  /** A metric result (number-or-null) used as an operand: null converts to 0. */
  function OrZero(v: Option<Value>): Value {
    v.GetOr(Finite(0.0))
  }

  /** JavaScript truthiness of a number-or-null: neither null nor 0. */
  predicate Truthy(v: Option<real>) {
    v.Some? && v.value != 0.0
  }

  function Add(a: Value, b: Value): Value {
    if a.Finite? && b.Finite? then Finite(a.x + b.x) else NonFinite
  }

  function Sub(a: Value, b: Value): Value {
    if a.Finite? && b.Finite? then Finite(a.x - b.x) else NonFinite
  }

  /** `a * k` for a finite factor `k`: a non-finite operand stays non-finite (Infinity * 0 is NaN). */
  function Mul(a: Value, k: real): Value {
    if a.Finite? then Finite(a.x * k) else NonFinite
  }

  /** `a / d` for a finite divisor `d`: dividing by zero leaves the finite numbers. */
  function Div(a: Value, d: real): (r: Value)
    ensures r.Finite? <==> a.Finite? && d != 0.0
    ensures r.Finite? ==> r.x * d == a.x
  {
    if a.Finite? && d != 0.0 then Finite(a.x / d) else NonFinite
  }
}
