/** Facts about division and remainder by a variable divisor. */
module Modular {

  lemma MulMono(a: int, b: int, n: nat)
    requires a <= b
    ensures a * n <= b * n
  {
  }

  lemma DivModUnique(x: nat, q: nat, r: nat, n: nat)
    requires n > 0 && x == q * n + r && r < n
    ensures x / n == q && x % n == r
  {
    assert x == x / n * n + x % n;
    if q < x / n {
      MulMono(q + 1, x / n, n);
    } else if x / n < q {
      MulMono(x / n + 1, q, n);
    }
  }

  lemma ModShift(a: nat, n: nat)
    requires n > 0
    ensures (a + n) % n == a % n
  {
    assert a == a / n * n + a % n;
    DivModUnique(a + n, a / n + 1, a % n, n);
  }

  /** Stepping a ring index by one. */
  lemma ModSucc(a: nat, n: nat)
    requires n > 0
    ensures (a % n + 1) % n == (a + 1) % n
  {
    assert a == a / n * n + a % n;
    if a % n + 1 < n {
      DivModUnique(a + 1, a / n, a % n + 1, n);
      DivModUnique(a % n + 1, 0, a % n + 1, n);
    } else {
      DivModUnique(a + 1, a / n + 1, 0, n);
      DivModUnique(n, 1, 0, n);
    }
  }

  lemma SameResidue(a: nat, b: nat, n: nat)
    requires n > 0 && a % n == b % n && a < b
    ensures b >= a + n && (b - a) % n == 0
  {
    assert a == a / n * n + a % n;
    assert b == b / n * n + b % n;
    if b / n <= a / n {
      MulMono(b / n, a / n, n);
    } else {
      MulMono(a / n + 1, b / n, n);
      DivModUnique(b - a, b / n - a / n, 0, n);
    }
  }

  /** Distinct nearby numbers have distinct residues. */
  lemma NearbyDiffer(a: nat, b: nat, n: nat)
    requires a < b < a + n
    ensures a % n != b % n
  {
    if a % n == b % n {
      SameResidue(a, b, n);
    }
  }
}
