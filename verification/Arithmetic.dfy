/** Facts about products and quotients of variables, each of which is called where it is needed. */
module Arithmetic {

  lemma Monotone(d: nat, a: int, b: int)
    ensures a <= b ==> d * a <= d * b
  {}

  lemma Times(a: int, x: int, y: int)
    ensures a * (x + y) == a * x + a * y
  {}

  lemma Associate(a: int, b: int, c: int)
    ensures a * (b * c) == a * b * c == b * a * c
  {}

  lemma Minus(a: int, b: int, x: int)
    ensures (a - b) * x == a * x - b * x
  {}

  lemma Distribute(b: int, q: int, t: int)
    ensures b * (b * q + t) == b * b * q + b * t
  {
    Times(b, b * q, t);
    Associate(b, b, q);
  }

  lemma DivModIs(x: nat, d: nat, q: nat, r: nat)
    requires d > 0 && x == d * q + r && r < d
    ensures x / d == q && x % d == r
  {
    Monotone(d, q + 1, x / d);
    Monotone(d, x / d + 1, q);
  }
}
