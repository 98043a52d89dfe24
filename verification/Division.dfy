/** Quotients and remainders, in the steps the solver needs. */
module Division {

  lemma MulMono(a: int, b: int, n: nat)
    ensures a <= b ==> a * n <= b * n
  {
    if a <= b { assert (b - a) * n >= 0; }
  }

  lemma Distribute(u: int, d: int, b: int)
    ensures (u + 1) * b == u * b + b && (d - 1) * b == d * b - b
  {
  }

  lemma ByDivision(m: nat, b: nat)
    requires b > 0
    ensures m == (m / b) * b + m % b
  {
  }

  lemma DivModUnique(x: nat, n: nat, q: nat, r: nat)
    requires n > 0 && x == q * n + r && r < n
    ensures x / n == q && x % n == r
  {
    var q', r' := x / n, x % n;
    ByDivision(x, n);
    MulMono(q' + 1, q, n);
    MulMono(q + 1, q', n);
    Distribute(q, q', n);
    Distribute(q', q, n);
  }

  /** Adding the divisor adds one to the quotient. */
  lemma AddOnce(x: nat, n: nat)
    requires n > 0
    ensures (x + n) % n == x % n && (x + n) / n == x / n + 1
  {
    var q, r := x / n, x % n;
    ByDivision(x, n);
    Distribute(q, q, n);
    DivModUnique(x + n, n, q + 1, r);
  }

  lemma MultipleOf(k: nat, n: nat)
    requires n > 0
    ensures (k * n) % n == 0
  {
    DivModUnique(k * n, n, k, 0);
  }

  lemma MultipleWithin(x: nat, b: nat, k: nat)
    requires b > 0
    ensures k * b <= x <==> k <= x / b
  {
    var q := x / b;
    ByDivision(x, b);
    Distribute(q, q, b);
    MulMono(k, q, b);
    MulMono(q + 1, k, b);
  }

  lemma DivMono(a: nat, c: nat, b: nat)
    requires b > 0 && a <= c
    ensures a / b <= c / b
  {
    ByDivision(a, b);
    MultipleWithin(c, b, a / b);
  }

  /** The quotient, rounded up: bdivide_up. */
  function CeilDiv(a: nat, b: nat): nat
    requires b > 0
  {
    (a + b - 1) / b
  }

  lemma CeilDivStep(left: nat, b: nat)
    requires b > 0
    ensures CeilDiv(0, b) == 0
    ensures left >= b ==> CeilDiv(left, b) == CeilDiv(left - b, b) + 1
    ensures 0 < left <= b ==> CeilDiv(left, b) == 1
    ensures forall less :: 0 <= less <= left ==> CeilDiv(less, b) <= CeilDiv(left, b)
  {
    DivModUnique(b - 1, b, 0, b - 1);
    if left > 0 { AddOnce(left - 1, b); }
    if left >= b { AddOnce(left - 1, b); assert left + b - 1 == (left - 1) + b; }
    if 0 < left <= b { DivModUnique(left - 1, b, 0, left - 1); }
    forall less | 0 <= less <= left ensures CeilDiv(less, b) <= CeilDiv(left, b) {
      DivMono(less + b - 1, left + b - 1, b);
    }
  }
}
