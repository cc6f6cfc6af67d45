/** Bitwise conjunction and disjunction of unsigned numbers, as far as masks of equal lanes need them. */
module Bits {

  import opened Arithmetic

  function Pow2(k: nat): (r: nat)
    ensures r > 0
  {
    if k == 0 then 1 else 2 * Pow2(k - 1)
  }

  function And(a: nat, b: nat): nat {
    if a == 0 || b == 0 then 0 else 2 * And(a / 2, b / 2) + if a % 2 + b % 2 == 2 then 1 else 0
  }

  function Or(a: nat, b: nat): nat {
    if a == 0 then b else if b == 0 then a
    else 2 * Or(a / 2, b / 2) + if a % 2 + b % 2 > 0 then 1 else 0
  }

  lemma AndStep(a: nat, b: nat)
    ensures And(a, b) == 2 * And(a / 2, b / 2) + if a % 2 + b % 2 == 2 then 1 else 0
  {}

  lemma OrStep(a: nat, b: nat)
    ensures Or(a, b) == 2 * Or(a / 2, b / 2) + if a % 2 + b % 2 > 0 then 1 else 0
  {}

  lemma {:induction false} AndBound(a: nat, b: nat)
    ensures And(a, b) <= b
  {
    if a != 0 && b != 0 {
      AndBound(a / 2, b / 2);
    }
  }

  lemma {:induction false} OrIsSum(a: nat, b: nat)
    ensures Or(a, b) + And(a, b) == a + b
  {
    if a != 0 && b != 0 {
      hide And, Or;
      OrIsSum(a / 2, b / 2);
      OrStep(a, b);
      AndStep(a, b);
    }
  }

  lemma {:induction false} PowSum(j: nat, k: nat)
    ensures Pow2(j + k) == Pow2(j) * Pow2(k)
  {
    if j > 0 {
      PowSum(j - 1, k);
      assert 2 * (Pow2(j - 1) * Pow2(k)) == Pow2(j) * Pow2(k);
    }
  }

  function Rem(x: nat, d: nat): nat
    requires d > 0
  {
    x % d
  }

  lemma OddMask(h: nat)
    requires h > 0
    ensures (2 * h - 1) / 2 == h - 1 && (2 * h - 1) % 2 == 1
  {}

  lemma QuotientIsNat(x: nat, D: nat)
    requires D > 0
    ensures x / D >= 0
  {
    Monotone(D, x / D, -1);
  }

  /** Quotient and remainder by a positive number that need not be a constant. */
  function Quo(x: nat, d: nat): nat
    requires d > 0
  {
    QuotientIsNat(x, d);
    x / d
  }

  lemma QuoRem(x: nat, d: nat)
    requires d > 0
    ensures x == d * Quo(x, d) + Rem(x, d) && Rem(x, d) < d
  {}

  lemma QuoRemIs(x: nat, d: nat, q: nat, r: nat)
    requires d > 0 && x == d * q + r && r < d
    ensures Quo(x, d) == q && Rem(x, d) == r
  {
    DivModIs(x, d, q, r);
  }

  lemma RemDouble(a: nat, m: nat)
    requires m > 0
    ensures Rem(a, 2 * m) == 2 * Rem(a / 2, m) + a % 2
  {
    hide Quo, Rem;
    QuoRem(a / 2, m);
    var q, r := Quo(a / 2, m), Rem(a / 2, m);
    assert 2 * m * q == 2 * (m * q);
    QuoRemIs(a, 2 * m, q, 2 * r + a % 2);
  }

  lemma RemOne(a: nat)
    ensures Rem(a, 1) == 0
  {}

  lemma AndZero(a: nat)
    ensures And(a, 0) == 0 == And(0, a)
  {}

  lemma {:induction false} AndLow(a: nat, k: nat)
    ensures And(a, Pow2(k) - 1) == Rem(a, Pow2(k))
  {
    hide And, Rem;
    if k > 0 {
      AndLow(a / 2, k - 1);
      AndStep(a, Pow2(k) - 1);
      OddMask(Pow2(k - 1));
      RemDouble(a, Pow2(k - 1));
    } else {
      RemOne(a);
      AndZero(a);
    }
  }

  /** A lane `v` of size `L` with the lanes `X` above it. */
  function Lane(v: nat, L: nat, X: nat): nat {
    v + L * X
  }

  lemma Halve(a: nat, h: nat, A: nat)
    ensures Lane(a, 2 * h, A) / 2 == Lane(a / 2, h, A) && Lane(a, 2 * h, A) % 2 == a % 2
  {
    var n := h * A;
    assert 2 * h * A == 2 * n;
  }

  lemma Double(a: nat, h: nat, A: nat, bit: nat)
    ensures 2 * Lane(a, h, A) + bit == Lane(2 * a + bit, 2 * h, A)
  {
    assert 2 * h * A == 2 * (h * A);
  }

  /** Low parts and high parts meet separately. */
  lemma {:induction false} AndSplit(a: nat, A: nat, m: nat, M: nat, k: nat)
    requires a < Pow2(k) && m < Pow2(k)
    ensures And(Lane(a, Pow2(k), A), Lane(m, Pow2(k), M)) == Lane(And(a, m), Pow2(k), And(A, M))
    decreases k
  {
    if k > 0 {
      hide And, Lane;
      var h := Pow2(k - 1);
      AndSplit(a / 2, A, m / 2, M, k - 1);
      Halve(a, h, A);
      Halve(m, h, M);
      AndStep(Lane(a, Pow2(k), A), Lane(m, Pow2(k), M));
      AndStep(a, m);
      Double(And(a / 2, m / 2), h, And(A, M), if a % 2 + m % 2 == 2 then 1 else 0);
    }
  }

  /** Right shift by `d` bits. */
  function Shr(x: nat, d: nat): nat {
    Quo(x, Pow2(d))
  }

  /** The low `p` bits. */
  function Low(x: nat, p: nat): nat {
    Rem(x, Pow2(p))
  }

  lemma LaneShift(v: nat, X: nat, D: nat, E: nat)
    requires D > 0
    ensures Lane(v, D * E, X) / D == Lane(Lane(v / D, E, X % D), D * E, X / D)
  {
    var q, r := X / D, X % D;
    assert X == D * q + r;
    assert D * E * X == D * (E * X);
    assert E * X == E * (D * q) + E * r == D * E * q + E * r;
    DivModIs(v + D * (E * X), D, v / D + E * X, v % D);
  }

  lemma LaneFits(v: nat, D: nat, E: nat, r: nat)
    requires D > 0 && v < D * E && r < D
    ensures Lane(v / D, E, r) < D * E
  {
    Monotone(D, E, v / D);
    Monotone(E, r + 1, D);
  }

  lemma SmallPower(p: nat, w: nat)
    requires p <= w
    ensures Pow2(p) - 1 < Pow2(w)
  {
    PowSum(p, w - p);
    Monotone(Pow2(p), 1, Pow2(w - p));
  }

  lemma ModAdds(x: nat, P: nat, F: nat, r: nat)
    requires P > 0
    ensures Lane(x, P * F, r) % P == x % P
  {
    assert P * F * r == P * (F * r);
    DivModIs(x + P * (F * r), P, x / P + F * r, x % P);
  }

  /** A field of `p` bits, `d` bits up, in every lane of `w` bits: the lowest lane, then the others. */
  lemma Field(v: nat, X: nat, M: nat, d: nat, p: nat, w: nat)
    requires v < Pow2(w) && d + p <= w
    ensures And(Shr(Lane(v, Pow2(w), X), d), Lane(Pow2(p) - 1, Pow2(w), M)) == Lane(Low(Shr(v, d), p), Pow2(w), And(Shr(X, d), M))
  {
    hide And, Lane, Pow2;
    var D, E := Pow2(d), Pow2(w - d);
    var r := X % D;
    var low := Lane(v / D, E, r);
    PowSum(d, w - d);
    PowSum(p, w - d - p);
    LaneShift(v, X, D, E);
    LaneFits(v, D, E, r);
    SmallPower(p, w);
    AndSplit(low, X / D, Pow2(p) - 1, M, w);
    AndLow(low, p);
    ModAdds(v / D, Pow2(p), Pow2(w - d - p), r);
  }

  lemma LaneJoin(u: nat, t: nat, L: nat, X: nat)
    ensures Lane(u, L, Lane(t, L, X)) == Lane(Lane(u, L, t), L * L, X)
  {
    assert L * (t + L * X) == L * t + L * L * X;
  }

  lemma LaneTimes(v: nat, L: nat, X: nat, c: nat)
    ensures Lane(v, L, X) * c == Lane(v * c, L, X * c)
  {
    assert (v + L * X) * c == v * c + L * (X * c);
  }

  /** Every lane of a mask is `m`. */
  function Mask(n: nat, m: nat, L: nat): nat {
    if n == 0 then 0 else Lane(m, L, Mask(n - 1, m, L))
  }

  /** A mask without low bits selects among the high bits. */
  lemma AndHigh(x: nat, m: nat, k: nat)
    ensures And(x, Pow2(k) * m) == Pow2(k) * And(Shr(x, k), m)
  {
    QuoRem(x, Pow2(k));
    AndZero(Rem(x, Pow2(k)));
    AndSplit(Rem(x, Pow2(k)), Quo(x, Pow2(k)), 0, m, k);
  }

  lemma LowMeetsHigh(a: nat, c: nat, k: nat)
    requires a < Pow2(k)
    ensures And(a, Pow2(k) * c) == 0
  {
    hide And, Pow2;
    AndSplit(a, 0, 0, c, k);
    AndZero(a);
    AndZero(c);
  }

  lemma LaneSum(a: nat, b: nat, L: nat, A: nat, B: nat, I: nat, U: nat)
    requires U + I == A + B
    ensures Lane(a, L, A) + Lane(b, L, B) - Lane(0, L, I) == Lane(a + b, L, U)
  {
    assert L * A + L * B == L * (A + B) == L * U + L * I;
  }

  lemma LaneIs(v: nat, L: nat, X: nat)
    ensures Lane(v, L, X) == v + L * X
  {}

  /** In the lowest lane of `w` bits, low bits and high bits are added; the other lanes follow. */
  lemma OrLane(a: nat, A: nat, c: nat, B: nat, k: nat, w: nat)
    requires a < Pow2(k) && Pow2(k) * c < Pow2(w) && k <= w
    ensures Or(Lane(a, Pow2(w), A), Lane(Pow2(k) * c, Pow2(w), B)) == Lane(Lane(a, Pow2(k), c), Pow2(w), Or(A, B))
  {
    hide And, Or, Lane, Pow2;
    var b, L := Pow2(k) * c, Pow2(w);
    SmallPower(k, w);
    AndSplit(a, A, b, B, w);
    LowMeetsHigh(a, c, k);
    OrIsSum(Lane(a, L, A), Lane(b, L, B));
    OrIsSum(A, B);
    LaneSum(a, b, L, A, B, And(A, B), Or(A, B));
    LaneIs(a, Pow2(k), c);
  }
}
