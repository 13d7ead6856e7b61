/** Powers of two, as bit masks and bit positions use them. */
module Powers {

  function Pow2(n: nat): (p: nat)
    ensures p > 0
  {
    if n == 0 then 1 else 2 * Pow2(n - 1)
  }

  lemma {:induction false} Pow2Add(a: nat, b: nat)
    ensures Pow2(a + b) == Pow2(a) * Pow2(b)
  {
    if a > 0 {
      Pow2Add(a - 1, b);
      TwiceProduct(Pow2(a - 1), Pow2(b));
    }
  }

  lemma TwiceProduct(p: int, q: int)
    ensures 2 * (p * q) == (2 * p) * q
  {
  }

  lemma MulOrder(a: int, b: int, d: nat)
    ensures a <= b ==> a * d <= b * d
  {
    if a <= b {
      assert (b - a) * d >= 0;
    }
  }

  lemma DivisionIsUnique(x: nat, d: nat, q: nat, r: nat)
    requires 0 < d && x == q * d + r && r < d
    ensures x / d == q && x % d == r
  {
    var q' := x / d;
    assert x == q' * d + x % d;
    MulOrder(q' + 1, q, d);
    MulOrder(q + 1, q', d);
    assert (q' + 1) * d == q' * d + d && (q + 1) * d == q * d + d;
  }

  lemma Regroup(x: nat, a: nat, b: nat, q1: nat, r1: nat, r: nat)
    requires x == (q1 * b + r1) * a + r
    ensures x == q1 * (a * b) + (r1 * a + r)
  {
    assert (q1 * b + r1) * a == q1 * b * a + r1 * a;
    assert q1 * b * a == q1 * (a * b);
  }

  lemma Division(x: nat, d: nat)
    requires d > 0
    ensures 0 <= x / d && x == x / d * d + x % d && x % d < d
  {
  }

  lemma QuotientsCompose(x: nat, a: nat, b: nat, q: nat, q1: nat, r1: nat, r: nat)
    requires 0 < a && r1 < b && r < a && x == q * a + r && q == q1 * b + r1
    ensures 0 < a * b && x == q1 * (a * b) + (r1 * a + r) && r1 * a + r < a * b
  {
    Regroup(x, a, b, q1, r1, r);
    MulOrder(r1 + 1, b, a);
    MulOrder(1, b, a);
    assert (r1 + 1) * a == r1 * a + a;
    assert b * a == a * b;
  }

  /** Dividing by a product is dividing twice. */
  lemma DivDiv(x: nat, a: nat, b: nat)
    requires 0 < a && 0 < b
    ensures 0 < a * b && x / a / b == x / (a * b)
  {
    var q := x / a;
    Division(x, a);
    Division(q, b);
    QuotientsCompose(x, a, b, q, q / b, q % b, x % a);
    DivisionIsUnique(x, a * b, q / b, q % b * a + x % a);
  }
}
