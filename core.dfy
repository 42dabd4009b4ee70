/** The small part of Ruby's object model that the notes rely on: nil,
    truthiness, the short-circuit `||`, and the integer spaceship operator. */
module RubyCore {

  /** Ruby's "a value or nil" return convention (Hash#[], Array#pop, String#index, ...). */
  datatype Option<+T> = None | Some(value: T)

  /** The Ruby objects that appear as data in the notes: nil, booleans,
      integers and strings. */
  datatype Value = Nil | Bool(b: bool) | Int(i: int) | Str(s: string)

  /** Only nil and false are falsy in Ruby; 0 and "" are truthy. */
  predicate Truthy(v: Value) {
    v != Nil && v != Bool(false)
  }

  /** `a || b`: the left operand when it is truthy, otherwise the right one. */
  function OrElse(a: Value, b: Value): (r: Value)
    ensures Truthy(a) ==> r == a
    ensures !Truthy(a) ==> r == b
    ensures Truthy(r) <==> Truthy(a) || Truthy(b)
  {
    if Truthy(a) then a else b
  }

  /** `x ||= v` is `x = x || v` for a plain variable: once the variable holds
      a truthy value, a further `||=` leaves it alone, whatever its right-hand side. */
  lemma OrAssignIdempotent(x: Value, v: Value, w: Value)
    requires Truthy(v)
    ensures Truthy(OrElse(x, v))
    ensures OrElse(OrElse(x, v), w) == OrElse(x, v)
  {
  }

  /** Integer#<=>: -1, 0 or 1 as `a` is less than, equal to or greater than `b`. */
  function Spaceship(a: int, b: int): (r: int)
    ensures r == -1 || r == 0 || r == 1
    ensures r < 0 <==> a < b
    ensures r == 0 <==> a == b
    ensures r > 0 <==> a > b
  {
    if a < b then -1 else if a == b then 0 else 1
  }

  /** Swapping the operands of <=> negates the answer. */
  lemma SpaceshipAntisymmetric(a: int, b: int)
    ensures Spaceship(b, a) == -Spaceship(a, b)
  {
  }
}
