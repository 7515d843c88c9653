/** Facts about products and remainders. */
module Arithmetic {
  lemma UniqueRemainder(x: int, m: nat, q: int, r: int)
    requires m > 0 && x == m * q + r && 0 <= r < m
    ensures x % m == r
  {
    var q', r' := x / m, x % m;
    assert x == m * q' + r';
    assert m * (q - q') == r' - r;
    if q != q' {
      Multiple(m, q - q');
    }
  }

  lemma Multiple(m: int, k: int)
    requires m > 0 && k != 0
    ensures m * k >= m || m * k <= -m
  {
    if k > 0 {
      PositiveMultiple(m, k);
    } else {
      PositiveMultiple(m, -k);
      assert m * k == -(m * -k);
    }
  }

  lemma {:induction false} PositiveMultiple(m: int, k: int)
    requires m > 0 && k >= 1
    ensures m * k >= m
    decreases k
  {
    if k > 1 {
      PositiveMultiple(m, k - 1);
      assert m * k == m * (k - 1) + m;
    }
  }

  lemma MultipleHasNoRemainder(a: nat, k: nat)
    requires a > 0
    ensures (a * k) % a == 0
  {
    UniqueRemainder(a * k, a, k, 0);
  }
}
