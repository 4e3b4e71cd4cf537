/** What several modules share. */
module Basics {
  datatype Option<+T> = None | Some(value: T)

  function Max(a: int, b: int): int {
    if a < b then b else a
  }

  function Min(a: int, b: int): int {
    if a < b then a else b
  }

  lemma MulMono(a: nat, b: nat, d: nat)
    requires a <= b
    ensures a * d <= b * d
  {
  }

  /** Rows of one length lie apart. */
  lemma RowsAhead(i: nat, j: nat, length: nat)
    requires i < j
    ensures i * length + length <= j * length
  {
    MulMono(i + 1, j, length);
    assert (i + 1) * length == i * length + length;
  }

  lemma DivUnique(n: nat, d: nat, q: nat)
    requires d > 0 && q * d <= n < (q + 1) * d
    ensures n / d == q
  {
    var q' := n / d;
    assert q' * d <= n < (q' + 1) * d;
    if q' > q {
      MulMono(q + 1, q', d);
    } else if q' < q {
      MulMono(q' + 1, q, d);
    }
  }

  lemma FloorBounds(x: real, d: real)
    requires d > 0.0
    ensures 0.0 <= x - (x / d).Floor as real * d < d
  {
    ScaledFraction(x / d, x, d, (x / d).Floor as real);
  }

  lemma ScaledFraction(q: real, x: real, d: real, f: real)
    requires d > 0.0 && x == q * d && 0.0 <= q - f < 1.0
    ensures 0.0 <= x - f * d < d
  {
    var e := q - f;
    Product(e, d);
    Product(1.0 - e, d);
    assert e * d == x - f * d;
    assert (1.0 - e) * d == d - e * d;
  }

  lemma Product(a: real, b: real)
    requires b > 0.0
    ensures (a * b >= 0.0 <==> a >= 0.0) && (a * b > 0.0 <==> a > 0.0)
  {
    if a < 0.0 {
      assert -a * b > 0.0;
    }
  }
}
