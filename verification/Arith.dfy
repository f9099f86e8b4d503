/** The few facts about products, quotients and remainders that the other modules lean on. */
module Arith {

  lemma Distribute(a: int, b: int, c: int)
    ensures (a + b) * c == a * c + b * c
  {
  }

  lemma TimesMonotone(a: int, b: int, d: int)
    requires d >= 0
    ensures a <= b ==> a * d <= b * d
  {
    if a <= b { assert 0 <= (b - a) * d == b * d - a * d; }
  }

  /** Quotient and remainder are determined by their defining equation. */
  lemma DivModUnique(a: int, q: int, r: int, n: int)
    requires n > 0 && a == q * n + r && 0 <= r < n
    ensures a / n == q && a % n == r
  {
    var d := q - a / n;
    Distribute(q, -(a / n), n);
    TimesMonotone(1, d, n);
    TimesMonotone(d, -1, n);
  }

  /** q is at most the quotient exactly when q divisors fit. */
  lemma QuotientAtLeast(a: int, d: int, q: int)
    requires d > 0
    ensures q <= a / d <==> q * d <= a
  {
    TimesMonotone(a / d + 1, q, d);
    TimesMonotone(q, a / d, d);
  }

  /** Reduction modulo n of a value below 2n. */
  function Wrap(a: nat, n: nat): (r: nat)
    requires n > 0 && a < 2 * n
    ensures r < n
  {
    if a < n then a else a - n
  }

  lemma WrapIsRemainder(a: nat, n: nat)
    requires n > 0 && a < 2 * n
    ensures Wrap(a, n) == a % n
  {
    DivModUnique(a, if a < n then 0 else 1, Wrap(a, n), n);
  }

  lemma NextRemainder(k: nat, n: nat)
    requires n > 0
    ensures Wrap(k % n + 1, n) == (k + 1) % n
  {
    var r := k % n;
    Distribute(k / n, 1, n);
    DivModUnique(k + 1, if r + 1 < n then k / n else k / n + 1, Wrap(r + 1, n), n);
  }
}
