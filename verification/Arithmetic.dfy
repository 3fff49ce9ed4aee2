/** The little arithmetic and counting that the other modules share. */
module Arithmetic {

  lemma MultiplyMonotone(d: nat, a: nat, b: nat)
    requires a <= b
    ensures a * d <= b * d
  {
  }

  /** Quotient and remainder are determined by the division identity. */
  lemma DivisionUnique(x: nat, d: nat, q: nat, r: nat)
    requires d > 0 && r < d && x == q * d + r
    ensures x / d == q && x % d == r
  {
    var p, s := x / d, x % d;
    assert x == p * d + s;
    if p < q { MultiplyMonotone(d, p + 1, q); }
    if q < p { MultiplyMonotone(d, q + 1, p); }
  }

  lemma ProductPositive(p: real, q: real)
    requires p > 0.0 && q > 0.0
    ensures p * q > 0.0
  {
  }

  lemma QuotientPositive(p: real, x: real)
    requires x > 0.0 && p * x > 0.0
    ensures p > 0.0
  {
    if p < 0.0 { ProductPositive(-p, x); }
  }

  lemma LargerProduct(p: real, x: real, q: real, y: real)
    requires 0.0 < x <= y && 0.0 < q && p < q
    ensures p * x < q * y
  {
    ProductPositive(q - p, x);
    assert (q - p) * x == q * x - p * x;
    if x < y { ProductPositive(q, y - x); }
    assert q * (y - x) == q * y - q * x;
  }

  lemma EqualProducts(p: real, x: real, q: real, y: real)
    requires 0.0 < x <= y && p * x == q * y > 0.0
    ensures p >= q
  {
    QuotientPositive(q, y);
    if p < q { LargerProduct(p, x, q, y); }
  }

  predicate Distinct<T(==)>(s: seq<T>) {
    forall i, j | 0 <= i < j < |s| :: s[i] != s[j]
  }

  lemma DistinctPush<T>(s: seq<T>, last: T)
    ensures Distinct(s + [last]) <==> Distinct(s) && last !in s
  {
    var all := s + [last];
    if Distinct(all) {
      assert forall i | 0 <= i < |s| :: s[i] == all[i] && all[i] != all[|s|];
    }
  }

  lemma SubsetIsSmaller<T>(a: set<T>, b: set<T>)
    requires a <= b
    ensures |a| <= |b|
  {
    assert b == a + (b - a);
  }
}
