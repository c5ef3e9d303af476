/** Facts about Euclidean division. */
module Numbers {
  lemma MultipleAtLeast(m: int, d: int)
    requires m > 0 && d > 0
    ensures m * d >= m
  {
  }

  lemma EuclidUnique(m: int, q1: int, r1: int, q2: int, r2: int)
    requires m > 0 && 0 <= r1 < m && 0 <= r2 < m && m * q1 + r1 == m * q2 + r2
    ensures q1 == q2 && r1 == r2
  {
    assert m * (q2 - q1) == m * q2 - m * q1 == -(m * (q1 - q2));
    if q1 < q2 {
      MultipleAtLeast(m, q2 - q1);
    } else if q2 < q1 {
      MultipleAtLeast(m, q1 - q2);
    }
  }

  lemma OneMoreStep(x: int, b: int)
    requires b > 0
    ensures (x + b) / b == x / b + 1
  {
    var y := x + b;
    assert x == b * (x / b) + x % b && y == b * (y / b) + y % b;
    assert b * (x / b + 1) == b * (x / b) + b;
    EuclidUnique(b, x / b + 1, x % b, y / b, y % b);
  }
}
