/** What several models share: optional values, and the uniqueness of quotient and remainder. */
module Prelude {

  datatype Option<+T> = None | Some(value: T)

  lemma MulMono(a: int, b: int, d: nat)
    requires a <= b
    ensures a * d <= b * d
  {
  }

  lemma QuotientUnique(n: int, d: nat, q: int, r: nat)
    requires n == q * d + r && r < d
    ensures n / d == q && n % d == r
  {
    var q' := n / d;
    if q' < q {
      MulMono(q' + 1, q, d);
    } else if q < q' {
      MulMono(q + 1, q', d);
    }
  }
}
