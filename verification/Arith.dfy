/** Products, quotients and remainders in steps small enough to reuse, and sizes of subsets. */
module Arith {
  function Min(a: nat, b: nat): (m: nat)
  {
    if a < b then a else b
  }

  function Max(a: nat, b: nat): (m: nat)
  {
    if a < b then b else a
  }

  lemma MulStep(a: nat, b: nat, d: nat)
    requires a < b
    ensures a * d + d <= b * d
  {
    assert b * d == a * d + (b - a) * d;
    assert (b - a) * d == d + (b - a - 1) * d;
  }

  lemma QuotientUnique(q: nat, r: nat, q': nat, r': nat, d: nat)
    requires r < d && r' < d
    requires q * d + r == q' * d + r'
    ensures q == q' && r == r'
  {
    if q < q' {
      MulStep(q, q', d);
    } else if q' < q {
      MulStep(q', q, d);
    }
  }

  /** Remainder and quotient. */
  function Split(x: nat, d: nat): (r: (nat, nat))
    requires d > 0
    ensures r.0 < d
  {
    (x % d, x / d)
  }

  lemma DivMod(x: nat, d: nat)
    requires d > 0
    ensures x == (x / d) * d + x % d
  {
  }

  lemma DivModUnique(q: nat, r: nat, d: nat)
    requires r < d
    ensures (q * d + r) / d == q
    ensures (q * d + r) % d == r
  {
    var x := q * d + r;
    DivMod(x, d);
    QuotientUnique(q, r, x / d, x % d, d);
  }

  lemma Regroup(q: nat, m: nat, r: nat, p: nat)
    ensures (q * m + r) * p == q * (p * m) + r * p
  {
    assert (q * m) * p == q * (p * m);
  }

  /** Scaling commutes with reduction when the modulus is scaled too. */
  lemma MulMod(x: nat, p: nat, m: nat)
    requires p > 0 && m > 0
    ensures p * m > 0 && (x * p) % (p * m) == (x % m) * p
  {
    var q, r := x / m, x % m;
    DivMod(x, m);
    Regroup(q, m, r, p);
    MulStep(r, m, p);
    assert m * p == p * m;
    DivModUnique(q, r * p, p * m);
  }

  lemma {:induction false} SubsetSize(a: set<nat>, b: set<nat>)
    requires a <= b
    ensures |a| <= |b|
  {
    if a != {} {
      var x :| x in a;
      SubsetSize(a - {x}, b - {x});
    }
  }
}
