/** Facts about multiplication, division and floor that the coordinate proofs
    use; each is stated on plain variables so that it applies to any term. */
module Arith {

  lemma MulMonotone(a: real, b: real, c: real)
    requires a <= b && c > 0.0
    ensures a * c <= b * c
    ensures a < b ==> a * c < b * c
  {
  }

  lemma MulIff(a: real, b: real, c: real)
    requires c > 0.0
    ensures a * c <= b * c <==> a <= b
    ensures a * c < b * c <==> a < b
  {
    if a <= b { MulMonotone(a, b, c); } else { MulMonotone(b, a, c); }
  }

  lemma DivMonotone(p: real, q: real, d: real)
    requires p <= q && d > 0.0
    ensures p / d <= q / d
  {
  }

  lemma DivStrict(p: real, q: real, d: real)
    requires p < q && d > 0.0
    ensures p / d < q / d
  {
  }

  lemma FloorOf(q: real)
    ensures q.Floor as real <= q < q.Floor as real + 1.0
  {
  }

  lemma FloorMonotone(a: real, b: real)
    requires a <= b
    ensures a.Floor <= b.Floor
  {
  }

  lemma FloorIff(q: real, n: int)
    ensures n <= q.Floor <==> n as real <= q
    ensures q.Floor < n <==> q < n as real
  {
  }

  lemma DivCancel(a: real, b: real)
    requires b != 0.0
    ensures a * b / b == a
  {
  }

  lemma CastMul(a: nat, b: nat)
    ensures (a * b) as real == a as real * b as real
  {
  }

  lemma NatMulLe(a: nat, b: nat, c: nat)
    requires a <= b
    ensures a * c <= b * c
  {
  }

  lemma NatMulLt(a: nat, b: nat, c: nat)
    requires a < b && c > 0
    ensures a * c < b * c
  {
  }

  lemma DivModUnique(a: nat, d: nat, q: nat, m: nat)
    requires d > 0 && a == q * d + m && m < d
    ensures a / d == q && a % d == m
  {
    var q', m' := a / d, a % d;
    assert a == q' * d + m';
    if q' < q {
      NatMulLe(q' + 1, q, d);
    } else if q < q' {
      NatMulLe(q + 1, q', d);
    }
  }

  /** Whole multiples of a positive `c` are ordered as their factors are. */
  lemma MultipleOrder(a: real, b: real, i: int, j: int, c: real)
    requires i <= j && c > 0.0
    requires a == i as real * c && b == j as real * c
    ensures a <= b
  {
    MulMonotone(i as real, j as real, c);
  }

  /** A quotient `q = a / c` with `k <= q < k + 1`, scaled back: `a` lies
      between the multiples `k * c` and `(k + 1) * c`, where `c = ts * s`. */
  lemma ScaledBounds(k: real, q: real, ts: real, s: real, a: real, r: real)
    requires ts > 0.0 && s > 0.0
    requires k <= q < k + 1.0
    requires a == q * (ts * s) && r == k * ts
    ensures r * s <= a < (r + ts) * s
  {
    MulMonotone(k, q, ts * s);
    MulMonotone(q, k + 1.0, ts * s);
  }

  /** `a - b * t < b` when `t` exceeds the quotient `q = a / b` by less than one. */
  lemma RemUpper(a: real, b: real, q: real, t: real)
    requires b > 0.0 && q * b == a && q < t + 1.0
    ensures a - b * t < b
  {
    MulMonotone(q, t + 1.0, b);
  }

  /** `-b < a - b * t` when `t` is below the quotient `q = a / b` by less than one. */
  lemma RemLower(a: real, b: real, q: real, t: real)
    requires b > 0.0 && q * b == a && t - 1.0 < q
    ensures -b < a - b * t
  {
    MulMonotone(t - 1.0, q, b);
  }

  /** A multiple `r = k * b` divided by `b` is `k`. */
  lemma DivOfMultiple(r: real, k: real, b: real)
    requires b != 0.0 && r == k * b
    ensures r / b == k
  {
    DivCancel(k, b);
  }
}
