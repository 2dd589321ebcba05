/** Division by a variable, which the solver does not do unaided. */
module Arithmetic {

  lemma QuotientUnique(n: nat, d: nat, q: nat, r: nat)
    requires d > 0 && r < d && n == q * d + r
    ensures n / d == q
  {
    assert (n / d - q) * d == r - n % d;
    MultiplesAreApart(n / d - q, d);
  }

  lemma MultiplesAreApart(e: int, d: nat)
    requires d > 0
    ensures e >= 1 ==> e * d >= d
    ensures e <= -1 ==> e * d + d <= 0
  {
    if e >= 1 {
      assert (e - 1) * d >= 0;
    } else if e <= -1 {
      assert (e + 1) * d <= 0;
    }
  }

  /** Taking one whole `d` away takes one off the quotient. */
  lemma OneLess(a: nat, d: nat)
    requires 1 <= d <= a
    ensures a / d == (a - d) / d + 1
  {
    var q, r := (a - d) / d, (a - d) % d;
    assert a - d == q * d + r;
    assert a == (q + 1) * d + r;
    QuotientUnique(a, d, q + 1, r);
  }
}
