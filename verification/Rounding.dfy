/** Round half up, in integers: the one rounding rule of marks, totals, averages and shares. */
module Rounding {

  function HalfUp(a: int, b: int): int
    requires b > 0
  {
    (a + b / 2) / b
  }

  /** The other spelling in use. */
  function HalfUpDoubled(a: int, b: int): int
    requires b > 0
  {
    (a * 2 + b) / (2 * b)
  }

  /** `r` is the integer nearest to a / b, and the upper one of two equally near. */
  ghost predicate Nearest(r: int, a: int, b: int) {
    -b <= 2 * (a - b * r) < b
  }

  lemma {:induction false} Quotient(x: int, d: int)
    requires d > 0
    ensures d * (x / d) <= x < d * (x / d) + d
  {}

  lemma {:induction false} Scaled(b: int, x: int, y: int)
    requires b >= 0 && x <= y
    ensures b * x <= b * y
  {}

  lemma {:induction false} OneNearest(r: int, q: int, a: int, b: int)
    requires b > 0 && Nearest(r, a, b) && Nearest(q, a, b)
    ensures r == q
  {
    if r < q { Scaled(b, r + 1, q); }
    if q < r { Scaled(b, q + 1, r); }
  }

  /** Both spellings give the nearest integer, so they cannot disagree about a half. */
  lemma {:induction false} SpellingsAgree(a: int, b: int)
    requires b > 0
    ensures Nearest(HalfUp(a, b), a, b)
    ensures HalfUpDoubled(a, b) == HalfUp(a, b)
  {
    Quotient(a + b / 2, b);
    Quotient(a * 2 + b, 2 * b);
    var q := HalfUpDoubled(a, b);
    assert 2 * b * q == 2 * (b * q);
    OneNearest(HalfUp(a, b), q, a, b);
  }

  lemma {:induction false} Monotone(a: int, a': int, b: int)
    requires b > 0 && a <= a'
    ensures HalfUp(a, b) <= HalfUp(a', b)
  {
    SpellingsAgree(a, b);
    SpellingsAgree(a', b);
    var r, r' := HalfUp(a, b), HalfUp(a', b);
    if r' < r { Scaled(b, r' + 1, r); }
  }

  /** A step of at least the denominator is never rounded away. */
  lemma {:induction false} WholeStepShows(a: int, a': int, b: int)
    requires b > 0 && a + b <= a'
    ensures HalfUp(a, b) < HalfUp(a', b)
  {
    SpellingsAgree(a, b);
    SpellingsAgree(a', b);
    var r, r' := HalfUp(a, b), HalfUp(a', b);
    if r' <= r { Scaled(b, r', r); }
  }

  /** Rounding keeps a whole number, so it stays between whole bounds. */
  lemma {:induction false} Exact(k: int, b: int)
    requires b > 0
    ensures HalfUp(b * k, b) == k
  {
    SpellingsAgree(b * k, b);
    OneNearest(HalfUp(b * k, b), k, b * k, b);
  }

  lemma {:induction false} StaysBetween(a: int, b: int, lo: int, hi: int)
    requires b > 0 && b * lo <= a <= b * hi
    ensures lo <= HalfUp(a, b) <= hi
  {
    Exact(lo, b);
    Exact(hi, b);
    Monotone(b * lo, a, b);
    Monotone(a, b * hi, b);
  }
}
