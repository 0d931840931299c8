/** The `Vector2` value type: a pair of coordinates with componentwise
    arithmetic. Every operator of the C++ class copies its receiver and returns
    a new value, so a datatype with functions models it exactly; the compound
    assignments (`+=`, `-=`, `*=`, `/=`) are the same functions assigned back. */
module Vectors {

  datatype Vector2 = Vector2(x: real, y: real)

  /** The default constructor. */
  function Zero(): Vector2
  {
    Vector2(0.0, 0.0)
  }

  /** `a + b` and `a += b`. */
  function Add(a: Vector2, b: Vector2): Vector2
  {
    Vector2(a.x + b.x, a.y + b.y)
  }

  /** `a - b` and `a -= b`. */
  function Sub(a: Vector2, b: Vector2): Vector2
  {
    Vector2(a.x - b.x, a.y - b.y)
  }

  /** `v * s` and `v *= s`. */
  function Scale(v: Vector2, s: real): Vector2
  {
    Vector2(v.x * s, v.y * s)
  }

  /** The friend operator `s * v`, defined as `v * s`. */
  function ScaleLeft(s: real, v: Vector2): Vector2
  {
    Scale(v, s)
  }

  /** `v / s` and `v /= s`; a zero divisor (an IEEE infinity) is excluded. */
  function Div(v: Vector2, s: real): Vector2
    requires s != 0.0
  {
    Vector2(v.x / s, v.y / s)
  }

  /** Unary minus. */
  function Neg(v: Vector2): Vector2
  {
    Vector2(-v.x, -v.y)
  }

  /** `normalized()`, given `len`, the value `length()` computes for `v`:
      the zero vector when the length is zero, otherwise `v / len`. */
  function Normalized(v: Vector2, len: real): Vector2
  {
    if len == 0.0 then Vector2(0.0, 0.0) else Div(v, len)
  }

  /** The default constructor yields the origin, and it is the identity of `+`. */
  lemma ZeroIsAdditiveIdentity(v: Vector2)
    ensures Zero().x == 0.0 && Zero().y == 0.0
    ensures Add(v, Zero()) == v && Add(Zero(), v) == v
  {
  }

  /** `+` is commutative and associative. */
  lemma AddCommutesAndAssociates(a: Vector2, b: Vector2, c: Vector2)
    ensures Add(a, b) == Add(b, a)
    ensures Add(Add(a, b), c) == Add(a, Add(b, c))
  {
  }

  /** `-` undoes `+`, and subtracting is adding the negation. */
  lemma SubInvertsAdd(a: Vector2, b: Vector2)
    ensures Sub(Add(a, b), b) == a
    ensures Add(Sub(a, b), b) == a
    ensures Sub(a, b) == Add(a, Neg(b))
  {
  }

  /** `v + (-v)` is the zero vector, and negation is an involution. */
  lemma NegIsAdditiveInverse(v: Vector2)
    ensures Add(v, Neg(v)) == Zero()
    ensures Neg(Neg(v)) == v
  {
  }

  /** `s * v == v * s`, scaling distributes over `+`, and `/ s` undoes `* s`. */
  lemma ScaleLaws(a: Vector2, b: Vector2, s: real)
    ensures ScaleLeft(s, a) == Scale(a, s)
    ensures Scale(Add(a, b), s) == Add(Scale(a, s), Scale(b, s))
    ensures s != 0.0 ==> Div(Scale(a, s), s) == a && Scale(Div(a, s), s) == a
  {
  }

  /** `normalized()` of the zero vector is the zero vector whatever length
      is supplied; for any other length `len` the result is `v / len`, so
      scaling it back by `len` gives `v` again. */
  lemma NormalizedIsZeroOrRescaled(v: Vector2, len: real)
    ensures Normalized(Zero(), len) == Zero()
    ensures len == 0.0 ==> Normalized(v, len) == Zero()
    ensures len != 0.0 ==> Scale(Normalized(v, len), len) == v
  {
  }
}
