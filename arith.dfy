/** Two facts about integer multiplication and division that the solver does
    not find unaided. */
module Arith {

  lemma MulMono(a: int, x: int, y: int)
    requires a >= 0 && x <= y
    ensures a * x <= a * y
  {
    assert a * y - a * x == a * (y - x);
  }

  /** Euclidean division: `q` is `a / n` when `q * n <= a < (q + 1) * n`. */
  lemma DivUnique(a: int, n: int, q: int)
    requires n > 0 && q * n <= a < (q + 1) * n
    ensures a / n == q
  {
    var d := a / n;
    if d < q {
      MulMono(n, d + 1, q);
    } else if d > q {
      MulMono(n, q + 1, d);
    }
  }
}
