/** Packed decimal conversion in parallel lanes: encoding/include/coter/encoding/bcd.h. */
module Bcd {

  import opened Arithmetic
  import opened Bits

  // ---------- Packed numbers ----------

  /** The `n` lowest digits of `v` to base `b`, each in a lane of size `L`. */
  function Packed(v: nat, n: nat, b: nat, L: nat): nat
    requires b > 0
    decreases n
  {
    if n == 0 then 0 else Lane(Rem(v, b), L, Packed(Quo(v, b), n - 1, b, L))
  }

  /** The high one of every two digits, in lanes twice as wide. */
  function Quotients(v: nat, n: nat, b: nat, L: nat): nat
    requires b > 0
    decreases n
  {
    if n == 0 then 0
    else Lane(Rem(Quo(v, b), b), L * L, Quotients(Quo(Quo(v, b), b), n - 1, b, L))
  }

  lemma Digits(v: nat, b: nat, q: nat, t: nat, u: nat)
    requires b > 0 && b * b > 0 && t < b && u < b && v == b * (b * q + t) + u
    ensures Rem(v, b * b) == u + b * t && Quo(v, b * b) == q
  {
    hide Quo, Rem;
    Distribute(b, q, t);
    Monotone(b, t + 1, b);
    QuoRemIs(v, b * b, q, b * t + u);
  }

  lemma TwoDigits(v: nat, b: nat)
    requires b > 0 && b * b > 0
    ensures Rem(v, b * b) == Rem(v, b) + b * Rem(Quo(v, b), b) && Quo(v, b * b) == Quo(Quo(v, b), b)
  {
    QuoRem(v, b);
    QuoRem(Quo(v, b), b);
    hide Quo, Rem;
    Digits(v, b, Quo(Quo(v, b), b), Rem(Quo(v, b), b), Rem(v, b));
  }

  lemma TwoLanes(v: nat, n: nat, b: nat, L: nat)
    requires b > 0 && n >= 2
    ensures Packed(v, n, b, L) == Lane(Rem(v, b), L, Lane(Rem(Quo(v, b), b), L, Packed(Quo(Quo(v, b), b), n - 2, b, L)))
  {
    hide Quo, Rem, Lane;
  }

  lemma Spread(u: nat, t: nat, b: nat, L: nat, P: nat, Q: nat, R: nat)
    requires b <= L && P + (L - b) * Q == R
    ensures Lane(u + b * t, L * L, P) + (L - b) * Lane(t, L * L, Q) == Lane(u, L, Lane(t, L, R))
  {
    hide Lane;
    var n, m := L * L, L - b;
    LaneIs(u + b * t, n, P);
    LaneIs(t, n, Q);
    LaneIs(t, L, R);
    LaneIs(u, L, Lane(t, L, R));
    Times(L, t, L * R);
    Associate(L, L, R);
    Times(m, t, n * Q);
    Times(n, P, m * Q);
    Associate(m, n, Q);
    Associate(n, m, Q);
    Minus(L, b, t);
  }

  /** One stage: every lane `w` becomes its quotient and remainder by `b` when `L - b` times the quotient is added. */
  lemma {:induction false} Refine(v: nat, n: nat, b: nat, L: nat)
    requires 0 < b <= L && 0 < b * b
    ensures Packed(v, n, b * b, L * L) + (L - b) * Quotients(v, n, b, L) == Packed(v, 2 * n, b, L)
    decreases n
  {
    hide Quo, Rem, Lane;
    if n > 0 {
      TwoDigits(v, b);
      var w := Quo(Quo(v, b), b);
      Refine(w, n - 1, b, L);
      var P, Q, R := Packed(w, n - 1, b * b, L * L), Quotients(w, n - 1, b, L), Packed(w, 2 * n - 2, b, L);
      TwoLanes(v, 2 * n, b, L);
      Spread(Rem(v, b), Rem(Quo(v, b), b), b, L, P, Q, R);
    }
  }

  lemma LaneBelow(v: nat, L: nat, X: nat, B: nat)
    requires v < L && X < B
    ensures Lane(v, L, X) < L * B
  {
    Monotone(L, X + 1, B);
  }

  /** The lanes do not run over. */
  lemma {:induction false} PackedFits(v: nat, n: nat, b: nat, k: nat)
    requires 0 < b <= Pow2(k)
    ensures Packed(v, n, b, Pow2(k)) < Pow2(n * k)
    decreases n
  {
    hide Quo, Rem, Lane;
    if n > 0 {
      PackedFits(Quo(v, b), n - 1, b, k);
      PowSum(k, (n - 1) * k);
      assert k + (n - 1) * k == n * k;
      QuoRem(v, b);
      LaneBelow(Rem(v, b), Pow2(k), Packed(Quo(v, b), n - 1, b, Pow2(k)), Pow2((n - 1) * k));
    }
  }

  // ---------- Decoding stages ----------

  lemma HighDigit(u: nat, t: nat, k: nat)
    requires u < Pow2(k) && t < Pow2(k)
    ensures Low(Shr(Lane(u, Pow2(k), t), k), k) == t
  {
    QuoRemIs(Lane(u, Pow2(k), t), Pow2(k), t, u);
    QuoRemIs(t, Pow2(k), 0, t);
  }

  /** The shift and mask of a decoding stage extract the high one of every two digits. */
  lemma {:induction false} HighDigits(v: nat, n: nat, b: nat, k: nat)
    requires 0 < b <= Pow2(k)
    ensures And(Shr(Packed(v, 2 * n, b, Pow2(k)), k), Mask(n, Pow2(k) - 1, Pow2(2 * k))) == Quotients(v, n, b, Pow2(k))
    decreases n
  {
    hide Quo, Rem, Lane, And, Shr, Pow2;
    var L := Pow2(k);
    PowSum(k, k);
    if n == 0 {
      AndZero(Shr(0, k));
    } else {
      var u, t, w := Rem(v, b), Rem(Quo(v, b), b), Quo(Quo(v, b), b);
      var R := Packed(w, 2 * n - 2, b, L);
      QuoRem(v, b);
      QuoRem(Quo(v, b), b);
      HighDigits(w, n - 1, b, k);
      TwoLanes(v, 2 * n, b, L);
      LaneJoin(u, t, L, R);
      LaneBelow(u, L, t, L);
      Field(Lane(u, L, t), R, Mask(n - 1, L - 1, L * L), k, k, 2 * k);
      HighDigit(u, t, k);
    }
  }

  lemma PowDouble(k: nat)
    ensures Pow2(2 * k) == Pow2(k) * Pow2(k)
  {
    hide Pow2;
    PowSum(k, k);
    assert k + k == 2 * k;
  }

  /** A decoding stage: from `2n` digits to base `b` to `n` digits to base `b * b`. */
  lemma DecodeStage(v: nat, n: nat, b: nat, k: nat)
    requires 0 < b <= Pow2(k) && 0 < b * b
    ensures var x := Packed(v, 2 * n, b, Pow2(k));
            x - (Pow2(k) - b) * And(Shr(x, k), Mask(n, Pow2(k) - 1, Pow2(2 * k))) == Packed(v, n, b * b, Pow2(2 * k))
  {
    hide *;
    HighDigits(v, n, b, k);
    Refine(v, n, b, Pow2(k));
    PowDouble(k);
  }

  // ---------- Encoding stages ----------

  /**
   * Division of the lanes of `k` bits by `b`, two lanes at once: drop `s` bits of each, keep `p`, multiply by `c` and
   * drop `t`.
   */
  datatype Scheme = Scheme(k: nat, s: nat, p: nat, c: nat, t: nat, b: nat) {

    ghost predicate Fits() {
      && s + p <= k && t <= k && b > 0 && b * b > 0 && b * b <= Pow2(k)
      && (Pow2(p) - 1) * c < Pow2(2 * k)
    }

    /** The lowest lane of what `Part` computes. */
    function Piece(v: nat, d: nat): nat {
      Low(Shr(Low(Shr(v, d), p) * c, t), k)
    }

    ghost predicate ExactAt(u: nat, w: nat) {
      b > 0 && Piece(Lane(u, Pow2(k), w), s) == Quo(u, b) && Piece(Lane(u, Pow2(k), w), k + s) == Quo(w, b)
    }

    /** On every pair of lanes the reciprocal gives the exact quotients. */
    ghost predicate Exact() {
      forall u: nat, w: nat :: u < b * b && w < b * b ==> ExactAt(u, w)
    }

    function Part(x: nat, d: nat, m: nat, mm: nat): nat {
      And(Shr(And(Shr(x, d), m) * c, t), mm)
    }
  }

  lemma LowFits(x: nat, p: nat)
    ensures Low(x, p) < Pow2(p)
  {
    QuoRem(x, Pow2(p));
  }

  lemma ScaledFits(z: Scheme, f: nat)
    requires z.Fits() && f < Pow2(z.p)
    ensures 0 <= f * z.c < Pow2(2 * z.k)
  {
    hide Pow2;
    Monotone(z.c, f, Pow2(z.p) - 1);
  }

  lemma PartLane(z: Scheme, v: nat, X: nat, d: nat, M: nat, MM: nat)
    requires z.Fits() && (d == z.s || d == z.k + z.s) && v < Pow2(2 * z.k)
    ensures var L := Pow2(2 * z.k);
            z.Part(Lane(v, L, X), d, Lane(Pow2(z.p) - 1, L, M), Lane(Pow2(z.k) - 1, L, MM)) ==
            Lane(z.Piece(v, d), L, z.Part(X, d, M, MM))
  {
    hide Quo, Rem, Lane, And, Shr, Low, Pow2;
    var L := Pow2(2 * z.k);
    var f := Low(Shr(v, d), z.p);
    Field(v, X, M, d, z.p, 2 * z.k);
    LaneTimes(f, L, And(Shr(X, d), M), z.c);
    LowFits(Shr(v, d), z.p);
    ScaledFits(z, f);
    Field(f * z.c, And(Shr(X, d), M) * z.c, MM, z.t, z.k, 2 * z.k);
  }

  lemma NoParts(z: Scheme)
    ensures Or(z.Part(0, z.s, 0, 0), Pow2(z.k) * z.Part(0, z.k + z.s, 0, 0)) == 0
  {
    hide Shr, Pow2;
  }

  lemma Pieces(z: Scheme, u: nat, w: nat)
    requires z.b > 0 && z.Exact() && u < z.b * z.b && w < z.b * z.b
    ensures z.Piece(Lane(u, Pow2(z.k), w), z.s) == Quo(u, z.b) && z.Piece(Lane(u, Pow2(z.k), w), z.k + z.s) == Quo(w, z.b)
  {
    assert z.ExactAt(u, w);
  }

  lemma QuoBelow(u: nat, b: nat, c: nat)
    requires b > 0 && u < b * c
    ensures Quo(u, b) < c
  {
    QuoRem(u, b);
    Monotone(b, c, Quo(u, b));
  }

  lemma JoinParts(z: Scheme, u: nat, w: nat, lo: nat, hi: nat)
    requires z.Fits() && u < z.b * z.b && w < z.b * z.b
    ensures var K, L := Pow2(z.k), Pow2(2 * z.k);
            Or(Lane(Quo(u, z.b), L, lo), K * Lane(Quo(w, z.b), L, hi)) ==
            Lane(Lane(Quo(u, z.b), K, Quo(w, z.b)), L, Or(lo, K * hi))
  {
    hide Quo, Rem, Lane, Or, Pow2;
    var K := Pow2(z.k);
    LaneTimes(Quo(w, z.b), Pow2(2 * z.k), hi, K);
    QuoBelow(u, z.b, z.b);
    QuoBelow(w, z.b, z.b);
    Monotone(z.b, 1, z.b);
    PowDouble(z.k);
    Monotone(K, Quo(w, z.b) + 1, K);
    OrLane(Quo(u, z.b), lo, Quo(w, z.b), K * hi, z.k, 2 * z.k);
  }

  lemma HighOf(v: nat, b: nat)
    requires b > 0 && b * b > 0
    ensures Quo(Rem(v, b * b), b) == Rem(Quo(v, b), b)
  {
    TwoDigits(v, b);
    QuoRem(v, b);
    hide Quo, Rem;
    QuoRemIs(Rem(v, b * b), b, Rem(Quo(v, b), b), Rem(v, b));
  }

  lemma TwoQuotients(v: nat, n: nat, b: nat, H: nat)
    requires b > 0 && b * b > 0 && n >= 2
    ensures var B, K := b * b, H * H;
            Quotients(v, n, b, H) ==
            Lane(Lane(Quo(Rem(v, B), b), K, Quo(Rem(Quo(v, B), B), b)), K * K, Quotients(Quo(Quo(v, B), B), n - 2, b, H))
  {
    hide Quo, Rem, Lane;
    var B := b * b;
    TwoDigits(v, b);
    TwoDigits(Quo(v, B), b);
    HighOf(v, b);
    HighOf(Quo(v, B), b);
    var t, r := Rem(Quo(v, b), b), Quo(v, B);
    assert Quotients(v, n, b, H) == Lane(t, H * H, Quotients(r, n - 1, b, H));
    LaneJoin(t, Rem(Quo(r, b), b), H * H, Quotients(Quo(r, B), n - 2, b, H));
  }

  /** The two parts together are the quotients of all lanes. */
  lemma {:induction false} AllQuotients(z: Scheme, v: nat, n: nat, h: nat)
    requires z.Fits() && z.Exact() && z.k == 2 * h
    ensures var x, L := Packed(v, 2 * n, z.b * z.b, Pow2(z.k)), Pow2(2 * z.k);
            var m, mm := Mask(n, Pow2(z.p) - 1, L), Mask(n, Pow2(z.k) - 1, L);
            Or(z.Part(x, z.s, m, mm), Pow2(z.k) * z.Part(x, z.k + z.s, m, mm)) == Quotients(v, 2 * n, z.b, Pow2(h))
    decreases n
  {
    hide Quo, Rem, Lane, And, Or, Shr, Low, Pow2, Scheme.Piece, Scheme.Part, Scheme.ExactAt;
    if n == 0 {
      NoParts(z);
    } else {
      var B, K, L := z.b * z.b, Pow2(z.k), Pow2(2 * z.k);
      PowDouble(h);
      PowDouble(z.k);
      var u, w, rest := Rem(v, B), Rem(Quo(v, B), B), Quo(Quo(v, B), B);
      var X, pair := Packed(rest, 2 * n - 2, B, K), Lane(u, K, w);
      TwoLanes(v, 2 * n, B, K);
      LaneJoin(u, w, K, X);
      QuoRem(v, B);
      QuoRem(Quo(v, B), B);
      LaneBelow(u, K, w, K);
      var M, MM := Mask(n - 1, Pow2(z.p) - 1, L), Mask(n - 1, K - 1, L);
      PartLane(z, pair, X, z.s, M, MM);
      PartLane(z, pair, X, z.k + z.s, M, MM);
      Pieces(z, u, w);
      AllQuotients(z, rest, n - 1, h);
      JoinParts(z, u, w, z.Part(X, z.s, M, MM), z.Part(X, z.k + z.s, M, MM));
      TwoQuotients(v, 2 * n, z.b, Pow2(h));
    }
  }

  const TENS := Scheme(8, 1, 7, 52, 8, 10)
  const HUNDREDS := Scheme(16, 2, 14, 1311, 15, 100)

  lemma SmallPowers()
    ensures Pow2(1) == 2 && Pow2(2) == 4 && Pow2(4) == 16 && Pow2(7) == 128 && Pow2(8) == 256 && Pow2(9) == 512
  {}

  lemma Powers()
    ensures Pow2(1) == 2 && Pow2(2) == 4 && Pow2(4) == 16 && Pow2(7) == 128 && Pow2(8) == 256 && Pow2(9) == 512
    ensures Pow2(14) == 16384 && Pow2(15) == 32768 && Pow2(16) == 65536 && Pow2(18) == 262144
    ensures Pow2(32) == 0x1_0000_0000 && Pow2(64) == 0x1_0000_0000_0000_0000
  {
    SmallPowers();
    hide Pow2;
    PowSum(7, 7);
    PowSum(7, 8);
    PowSum(8, 8);
    PowSum(9, 9);
    PowSum(16, 16);
    PowSum(32, 32);
  }

  lemma PieceIs(z: Scheme, v: nat, d: nat)
    ensures z.Piece(v, d) == Rem(Quo(Rem(Quo(v, Pow2(d)), Pow2(z.p)) * z.c, Pow2(z.t)), Pow2(z.k))
  {
    hide Quo, Rem, Pow2;
  }

  lemma Tenth(u: nat)
    requires u < 100
    ensures Rem(Quo(Quo(u, 2) * 52, 256), 256) == Quo(u, 10)
  {
    hide Quo, Rem;
    QuoRem(u, 2);
    var a := Quo(u, 2);
    QuoRem(a, 5);
    var q, s := Quo(a, 5), Rem(a, 5);
    QuoRemIs(u, 10, q, 2 * s + Rem(u, 2));
    QuoRemIs(a * 52, 256, q, 4 * q + 52 * s);
    QuoRemIs(q, 256, 0, q);
  }

  /** Both lanes of a pair, each without its lowest bits. */
  lemma Halves(u: nat, w: nat, D: nat, P: nat)
    requires (D == 2 && P == 128 && u < 256 && w < 256) || (D == 4 && P == 16384 && u < 65536 && w < 65536)
    ensures var v := Lane(u, D * P, w); Rem(Quo(v, D), P) == Quo(u, D) && Rem(Quo(v, D * P * D), P) == Quo(w, D)
  {
    hide Quo, Rem;
    QuoRem(u, D);
    QuoRem(w, D);
    var v := Lane(u, D * P, w);
    QuoRemIs(v, D, Quo(u, D) + P * w, Rem(u, D));
    QuoRemIs(Quo(u, D) + P * w, P, w, Quo(u, D));
    QuoRemIs(v, D * P * D, Quo(w, D), D * P * Rem(w, D) + u);
    QuoRemIs(Quo(w, D), P, 0, Quo(w, D));
  }

  lemma TensAt(u: nat, w: nat)
    requires u < 100 && w < 100
    ensures var v := Lane(u, 256, w);
            && Rem(Quo(Rem(Quo(v, 2), 128) * 52, 256), 256) == Quo(u, 10)
            && Rem(Quo(Rem(Quo(v, 512), 128) * 52, 256), 256) == Quo(w, 10)
  {
    hide Quo, Rem;
    Tenth(u);
    Tenth(w);
    Halves(u, w, 2, 128);
  }

  /** 52/256 of the halves are the tenths, for both bytes of a lane and every pair of numbers below 100. */
  lemma TensExact()
    ensures TENS.Fits() && TENS.Exact()
  {
    Powers();
    hide Pow2, Quo, Rem, Lane, Scheme.Piece;
    forall u: nat, w: nat | u < 100 && w < 100
      ensures TENS.ExactAt(u, w)
    {
      var v := Lane(u, 256, w);
      PieceIs(TENS, v, 1);
      PieceIs(TENS, v, 9);
      TensAt(u, w);
    }
  }

  lemma Hundredth(u: nat)
    requires u < 10000
    ensures Rem(Quo(Quo(u, 4) * 1311, 32768), 65536) == Quo(u, 100)
  {
    hide Quo, Rem;
    QuoRem(u, 4);
    var a := Quo(u, 4);
    QuoRem(a, 25);
    var q, s := Quo(a, 25), Rem(a, 25);
    QuoRemIs(u, 100, q, 4 * s + Rem(u, 4));
    QuoRemIs(a * 1311, 32768, q, 7 * q + 1311 * s);
    QuoRemIs(q, 65536, 0, q);
  }

  lemma HundredsAt(u: nat, w: nat)
    requires u < 10000 && w < 10000
    ensures var v := Lane(u, 65536, w);
            && Rem(Quo(Rem(Quo(v, 4), 16384) * 1311, 32768), 65536) == Quo(u, 100)
            && Rem(Quo(Rem(Quo(v, 262144), 16384) * 1311, 32768), 65536) == Quo(w, 100)
  {
    hide Quo, Rem;
    Hundredth(u);
    Hundredth(w);
    Halves(u, w, 4, 16384);
  }

  /** 1311/32768 of the quarters are the hundredths, for every pair of numbers below 10000. */
  lemma HundredsExact()
    ensures HUNDREDS.Fits() && HUNDREDS.Exact()
  {
    Powers();
    hide Pow2, Quo, Rem, Lane, Scheme.Piece;
    forall u: nat, w: nat | u < 10000 && w < 10000
      ensures HUNDREDS.ExactAt(u, w)
    {
      var v := Lane(u, 65536, w);
      PieceIs(HUNDREDS, v, 2);
      PieceIs(HUNDREDS, v, 18);
      HundredsAt(u, w);
    }
  }

  lemma TensStep(v: nat, n: nat, x: nat, m: nat, mm: nat)
    requires x == Packed(v, 2 * n, 100, 256) && m == Mask(n, 127, 65536) && mm == Mask(n, 255, 65536)
    ensures Or(And(Shr(And(Shr(x, 1), m) * 52, 8), mm), And(And(Shr(x, 9), m) * 52, 256 * mm)) == Quotients(v, 2 * n, 10, 16)
  {
    Powers();
    hide And, Or, Shr, Pow2, Packed, Quotients, Mask, Scheme.Exact;
    TensExact();
    AllQuotients(TENS, v, n, 4);
    AndHigh(And(Shr(x, 9), m) * 52, mm, 8);
  }

  lemma ShiftBack(y: nat)
    ensures Shr(y * 2, 16) == Shr(y, 15)
  {
    Powers();
    hide Pow2, Quo, Rem;
    QuoRem(y, 32768);
    QuoRemIs(y * 2, 65536, Quo(y, 32768), 2 * Rem(y, 32768));
  }

  lemma HundredsStep(v: nat, n: nat, x: nat, m: nat, mm: nat)
    requires x == Packed(v, 2 * n, 10000, 65536) && m == Mask(n, 16383, 0x1_0000_0000) && mm == Mask(n, 65535, 0x1_0000_0000)
    ensures Or(And(Shr(And(Shr(x, 2), m) * 1311, 15), mm), And(And(Shr(x, 18), m) * 1311 * 2, 65536 * mm)) ==
            Quotients(v, 2 * n, 100, 256)
  {
    Powers();
    hide And, Or, Shr, Pow2, Packed, Quotients, Mask, Scheme.Exact;
    HundredsExact();
    AllQuotients(HUNDREDS, v, n, 8);
    var y := And(Shr(x, 18), m) * 1311;
    AndHigh(y * 2, mm, 16);
    ShiftBack(y);
  }

  /** The first stage splits a number below `b * b`. */
  lemma FirstStage(a: nat, b: nat, L: nat)
    requires 0 < b <= L && a < b * b
    ensures a + (L - b) * Quo(a, b) == Packed(a, 2, b, L)
  {
    hide Quo, Rem;
    QuoRem(a, b);
    Monotone(b, b, Quo(a, b));
    QuoRemIs(Quo(a, b), b, 0, Quo(a, b));
    assert Packed(a, 2, b, L) == Lane(Rem(a, b), L, Lane(Quo(a, b), L, 0));
    assert (L - b) * Quo(a, b) == L * Quo(a, b) - b * Quo(a, b);
  }

  /** A later stage. */
  lemma NextStage(v: nat, n: nat, b: nat, k: nat, x: nat, q: nat)
    requires 0 < b <= Pow2(k) && 0 < b * b
    requires x == Packed(v, n, b * b, Pow2(2 * k)) && q == Quotients(v, n, b, Pow2(k))
    ensures x + (Pow2(k) - b) * q == Packed(v, 2 * n, b, Pow2(k)) < Pow2(2 * n * k)
  {
    hide Pow2;
    PowDouble(k);
    Refine(v, n, b, Pow2(k));
    PackedFits(v, 2 * n, b, k);
  }

  // ---------- Encoding ----------

  // Unsigned arithmetic of 8, 16, 32 and 64 bits wraps around.
  function W8(x: int): nat { x % 0x100 }
  function W16(x: int): nat { x % 0x1_0000 }
  function W32(x: int): nat { x % 0x1_0000_0000 }
  function W64(x: int): nat { x % 0x1_0000_0000_0000_0000 }

  function Tens16(x: nat): nat {
    var lo8 := And(Shr(x, 1), 0x7F);
    var hi8 := And(Shr(x, 9), 0x7F);
    W16(Or(Shr(lo8 * 52, 8), And(hi8 * 52, 0xFF00)))
  }

  function EncodeU16(bin: nat): nat {
    var a := bin % 10000;
    var b := W16(a + a / 100 * 156);
    W16(b + Tens16(b) * 6)
  }

  function Hundreds32(x: nat): nat {
    var lo16 := And(Shr(x, 2), 0x3FFF);
    var hi16 := And(Shr(x, 18), 0x3FFF);
    Or(Shr(W32(lo16 * 1311), 15), And(W32(W32(hi16 * 1311) * 2), 0xFFFF_0000))
  }

  function Tens32(x: nat): nat {
    var lo8 := And(Shr(x, 1), 0x007F_007F);
    var hi8 := And(Shr(x, 9), 0x007F_007F);
    Or(And(Shr(W32(lo8 * 52), 8), 0x00FF_00FF), And(W32(hi8 * 52), 0xFF00_FF00))
  }

  function EncodeU32(bin: nat): nat {
    var a := bin % 100000000;
    var b := W32(a + W32(a / 10000 * 55536));
    var c := W32(b + W32(Hundreds32(b) * 156));
    W32(c + W32(Tens32(c) * 6))
  }

  function TenThousands64(x: nat): nat {
    var hi32Div := W32(Shr(x, 32)) / 10000;
    var lo32Div := W32(x) / 10000;
    Or(W64(hi32Div * 0x1_0000_0000), lo32Div)
  }

  function Hundreds64(x: nat): nat {
    var lo16 := And(Shr(x, 2), 0x0000_3FFF_0000_3FFF);
    var hi16 := And(Shr(x, 18), 0x0000_3FFF_0000_3FFF);
    Or(And(Shr(W64(lo16 * 1311), 15), 0x0000_FFFF_0000_FFFF), And(W64(W64(hi16 * 1311) * 2), 0xFFFF_0000_FFFF_0000))
  }

  function Tens64(x: nat): nat {
    var lo8 := And(Shr(x, 1), 0x007F_007F_007F_007F);
    var hi8 := And(Shr(x, 9), 0x007F_007F_007F_007F);
    Or(And(Shr(W64(lo8 * 52), 8), 0x00FF_00FF_00FF_00FF), And(W64(hi8 * 52), 0xFF00_FF00_FF00_FF00))
  }

  function EncodeU64(bin: nat): nat {
    var a := bin % 10000000000000000;
    var b := W64(a + W64(a / 100000000 * 4194967296));
    var c := W64(b + W64(TenThousands64(b) * 55536));
    var d := W64(c + W64(Hundreds64(c) * 156));
    W64(d + W64(Tens64(d) * 6))
  }

  lemma Masks(m: nat)
    ensures Mask(1, m, 65536) == m && Mask(2, m, 65536) == 0x1_0001 * m && Mask(4, m, 65536) == 0x1_0001_0001_0001 * m
    ensures Mask(1, m, 0x1_0000_0000) == m && Mask(2, m, 0x1_0000_0000) == 0x1_0000_0001 * m
  {
    var L := 65536;
    assert Mask(1, m, L) == Lane(m, L, Mask(0, m, L));
    assert Mask(2, m, L) == Lane(m, L, Mask(1, m, L));
    assert Mask(3, m, L) == Lane(m, L, Mask(2, m, L));
    assert Mask(4, m, L) == Lane(m, L, Mask(3, m, L));
  }

  lemma FullMask(y: nat, k: nat)
    requires y < Pow2(k)
    ensures And(y, Pow2(k) - 1) == y
  {
    AndLow(y, k);
    QuoRemIs(y, Pow2(k), 0, y);
  }

  lemma ShrBelow(y: nat, d: nat, k: nat)
    requires y < Pow2(d) * Pow2(k)
    ensures Shr(y, d) < Pow2(k)
  {
    QuoBelow(y, Pow2(d), Pow2(k));
  }

  lemma LowByteStays(f: nat)
    ensures var y := And(f, 0x7F) * 52; And(Shr(y, 8), 0xFF) == Shr(y, 8)
  {
    hide And, Shr, Pow2;
    Powers();
    AndBound(f, 0x7F);
    ShrBelow(And(f, 0x7F) * 52, 8, 8);
    FullMask(Shr(And(f, 0x7F) * 52, 8), 8);
  }

  lemma NoWrap(x: nat)
    ensures x < 0x1_0000 ==> W16(x) == x
    ensures x < 0x1_0000_0000 ==> W32(x) == x
    ensures x < 0x1_0000_0000_0000_0000 ==> W64(x) == x
  {}

  lemma Tens16Is(v: nat, x: nat)
    requires x == Packed(v, 2, 100, 256) && Quotients(v, 2, 10, 16) < 0x1_0000
    ensures Tens16(x) == Quotients(v, 2, 10, 16)
  {
    hide And, Or, Shr, Packed, Quotients, Mask, Pow2, W16;
    Masks(127);
    Masks(255);
    TensStep(v, 1, x, 0x7F, 0xFF);
    LowByteStays(Shr(x, 1));
    NoWrap(Quotients(v, 2, 10, 16));
  }

  lemma Tens32Is(v: nat, x: nat)
    requires x == Packed(v, 4, 100, 256)
    ensures Tens32(x) == Quotients(v, 4, 10, 16)
  {
    hide And, Or, Shr, Packed, Quotients, Mask;
    Masks(127);
    Masks(255);
    TensStep(v, 2, x, 0x007F_007F, 0x00FF_00FF);
    AndBound(Shr(x, 1), 0x007F_007F);
    AndBound(Shr(x, 9), 0x007F_007F);
  }

  lemma Tens64Is(v: nat, x: nat)
    requires x == Packed(v, 8, 100, 256)
    ensures Tens64(x) == Quotients(v, 8, 10, 16)
  {
    hide And, Or, Shr, Packed, Quotients, Mask;
    Masks(127);
    Masks(255);
    TensStep(v, 4, x, 0x007F_007F_007F_007F, 0x00FF_00FF_00FF_00FF);
    AndBound(Shr(x, 1), 0x007F_007F_007F_007F);
    AndBound(Shr(x, 9), 0x007F_007F_007F_007F);
  }

  lemma Hundreds32Is(v: nat, x: nat)
    requires x == Packed(v, 2, 10000, 65536)
    ensures Hundreds32(x) == Quotients(v, 2, 100, 256)
  {
    hide And, Or, Shr, Packed, Quotients, Mask, Pow2;
    Powers();
    Masks(16383);
    Masks(65535);
    HundredsStep(v, 1, x, 0x3FFF, 0xFFFF);
    var y := And(Shr(x, 2), 0x3FFF) * 1311;
    AndBound(Shr(x, 2), 0x3FFF);
    AndBound(Shr(x, 18), 0x3FFF);
    ShrBelow(y, 15, 16);
    FullMask(Shr(y, 15), 16);
  }

  lemma Hundreds64Is(v: nat, x: nat)
    requires x == Packed(v, 4, 10000, 65536)
    ensures Hundreds64(x) == Quotients(v, 4, 100, 256)
  {
    hide And, Or, Shr, Packed, Quotients, Mask;
    Masks(16383);
    Masks(65535);
    HundredsStep(v, 2, x, 0x0000_3FFF_0000_3FFF, 0x0000_FFFF_0000_FFFF);
    AndBound(Shr(x, 2), 0x0000_3FFF_0000_3FFF);
    AndBound(Shr(x, 18), 0x0000_3FFF_0000_3FFF);
  }

  lemma NothingPacked(v: nat, b: nat, L: nat)
    requires b > 0
    ensures Packed(v, 0, b, L) == 0
  {}

  lemma TwoHalves(v: nat, x: nat)
    requires x == Packed(v, 2, 100000000, 0x1_0000_0000)
    ensures var B := 100000000; Shr(x, 32) == Rem(Quo(v, B), B) && W32(x) == Rem(v, B)
  {
    Powers();
    hide Quo, Rem, Packed, Pow2, Lane;
    var B, K := 100000000, 0x1_0000_0000;
    var u, w := Rem(v, B), Rem(Quo(v, B), B);
    QuoRem(v, B);
    QuoRem(Quo(v, B), B);
    TwoLanes(v, 2, B, K);
    NothingPacked(Quo(Quo(v, B), B), B, K);
    LaneIs(w, K, 0);
    LaneIs(u, K, w);
    QuoRemIs(x, K, w, u);
  }

  lemma {:induction false} AndCommutes(a: nat, b: nat)
    ensures And(a, b) == And(b, a)
  {
    if a != 0 && b != 0 {
      AndCommutes(a / 2, b / 2);
    }
  }

  lemma OrHalves(lo: nat, hi: nat)
    requires lo < 0x1_0000_0000
    ensures Or(hi * 0x1_0000_0000, lo) == lo + 0x1_0000_0000 * hi
  {
    Powers();
    hide And, Or, Pow2;
    LowMeetsHigh(lo, hi, 32);
    AndCommutes(lo, 0x1_0000_0000 * hi);
    OrIsSum(hi * 0x1_0000_0000, lo);
  }

  lemma NoQuotients(v: nat)
    ensures Quotients(v, 0, 10000, 65536) == 0
  {}

  lemma QuoIs(u: nat)
    ensures Quo(u, 10000) == u / 10000
  {}

  lemma TenThousands64Is(v: nat, x: nat)
    requires x == Packed(v, 2, 100000000, 0x1_0000_0000)
    ensures TenThousands64(x) == Quotients(v, 2, 10000, 65536)
  {
    hide Quo, Rem, And, Or, Packed, Quotients, Pow2, Lane, W32, W64;
    var B, K := 100000000, 0x1_0000_0000;
    var u, w := Rem(v, B), Rem(Quo(v, B), B);
    QuoRem(v, B);
    QuoRem(Quo(v, B), B);
    TwoHalves(v, x);
    var lo, hi := u / 10000, w / 10000;
    NoWrap(w);
    NoWrap(hi * K);
    OrHalves(lo, hi);
    TwoQuotients(v, 2, 10000, 65536);
    NoQuotients(Quo(Quo(v, B), B));
    LaneIs(lo, K, hi);
    LaneIs(Lane(lo, K, hi), K * K, 0);
    QuoIs(u);
    QuoIs(w);
  }

  lemma SplitU16(a: nat)
    requires a < 10000
    ensures W16(a + a / 100 * 156) == Packed(a, 2, 100, 256)
  {
    hide Packed, Pow2, W16;
    Powers();
    FirstStage(a, 100, 256);
    PackedFits(a, 2, 100, 8);
    NoWrap(a + a / 100 * 156);
  }

  lemma SplitU32(a: nat)
    requires a < 100000000
    ensures W32(a + W32(a / 10000 * 55536)) == Packed(a, 2, 10000, 65536)
  {
    Powers();
    hide Packed, Pow2;
    FirstStage(a, 10000, 65536);
    PackedFits(a, 2, 10000, 16);
  }

  lemma SplitU64(a: nat)
    requires a < 10000000000000000
    ensures W64(a + W64(a / 100000000 * 4194967296)) == Packed(a, 2, 100000000, 0x1_0000_0000)
  {
    Powers();
    hide Packed, Pow2;
    FirstStage(a, 100000000, 0x1_0000_0000);
    PackedFits(a, 2, 100000000, 32);
  }

  lemma TensAdd(v: nat, n: nat, x: nat)
    requires x == Packed(v, n, 100, 256)
    ensures var q := Quotients(v, n, 10, 16); x + q * 6 == Packed(v, 2 * n, 10, 16) < Pow2(8 * n)
  {
    Powers();
    hide Packed, Quotients, Pow2;
    NextStage(v, n, 10, 4, x, Quotients(v, n, 10, 16));
  }

  lemma HundredsAdd(v: nat, n: nat, x: nat)
    requires x == Packed(v, n, 10000, 65536)
    ensures var q := Quotients(v, n, 100, 256); x + q * 156 == Packed(v, 2 * n, 100, 256) < Pow2(16 * n)
  {
    Powers();
    hide Packed, Quotients, Pow2;
    NextStage(v, n, 100, 8, x, Quotients(v, n, 100, 256));
  }

  lemma TenThousandsAdd(v: nat, n: nat, x: nat)
    requires x == Packed(v, n, 100000000, 0x1_0000_0000)
    ensures var q := Quotients(v, n, 10000, 65536); x + q * 55536 == Packed(v, 2 * n, 10000, 65536) < Pow2(32 * n)
  {
    Powers();
    hide Packed, Quotients, Pow2;
    NextStage(v, n, 10000, 16, x, Quotients(v, n, 10000, 65536));
  }

  /** Four digits. */
  lemma EncodeU16Correct(bin: nat)
    ensures EncodeU16(bin) == Packed(bin % 10000, 4, 10, 16) < 0x1_0000
  {
    hide Packed, Quotients, Tens16, Pow2, W16;
    Powers();
    var a := bin % 10000;
    var b := Packed(a, 2, 100, 256);
    SplitU16(a);
    TensAdd(a, 2, b);
    Tens16Is(a, b);
    NoWrap(b + Quotients(a, 2, 10, 16) * 6);
  }

  lemma Adds32(x: nat, y: nat)
    ensures x + y < 0x1_0000_0000 ==> W32(x + W32(y)) == x + y
  {}

  /** Eight digits. */
  lemma EncodeU32Correct(bin: nat)
    ensures EncodeU32(bin) == Packed(bin % 100000000, 8, 10, 16) < 0x1_0000_0000
  {
    hide Packed, Quotients, Hundreds32, Tens32, Pow2, W32;
    Powers();
    var a := bin % 100000000;
    var b, c := Packed(a, 2, 10000, 65536), Packed(a, 4, 100, 256);
    SplitU32(a);
    HundredsAdd(a, 2, b);
    TensAdd(a, 4, c);
    Hundreds32Is(a, b);
    Tens32Is(a, c);
    Adds32(b, Quotients(a, 2, 100, 256) * 156);
    Adds32(c, Quotients(a, 4, 10, 16) * 6);
  }

  lemma Adds64(x: nat, y: nat)
    ensures x + y < 0x1_0000_0000_0000_0000 ==> W64(x + W64(y)) == x + y
  {}

  /** Sixteen digits. */
  lemma EncodeU64Correct(bin: nat)
    ensures EncodeU64(bin) == Packed(bin % 10000000000000000, 16, 10, 16) < 0x1_0000_0000_0000_0000
  {
    hide Packed, Quotients, TenThousands64, Hundreds64, Tens64, Pow2, W64;
    Powers();
    var a := bin % 10000000000000000;
    var b, c, d := Packed(a, 2, 100000000, 0x1_0000_0000), Packed(a, 4, 10000, 65536), Packed(a, 8, 100, 256);
    SplitU64(a);
    TenThousandsAdd(a, 2, b);
    HundredsAdd(a, 4, c);
    TensAdd(a, 8, d);
    TenThousands64Is(a, b);
    Hundreds64Is(a, c);
    Tens64Is(a, d);
    Adds64(b, Quotients(a, 2, 10000, 65536) * 55536);
    Adds64(c, Quotients(a, 4, 100, 256) * 156);
    Adds64(d, Quotients(a, 8, 10, 16) * 6);
  }

  // ---------- Decoding ----------

  function DecodeU16(bcd: nat): nat {
    var b := W16(bcd - And(Shr(bcd, 4), 0x0F0F) * 6);
    W16(b - Shr(b, 8) * 156)
  }

  function DecodeU32(bcd: nat): nat {
    var b := W32(bcd - W32(And(Shr(bcd, 4), 0x0F0F_0F0F) * 6));
    var c := W32(b - W32(And(Shr(b, 8), 0x00FF_00FF) * 156));
    W32(c - W32(Shr(c, 16) * 55536))
  }

  function DecodeU64(bcd: nat): nat {
    var b := W64(bcd - W64(And(Shr(bcd, 4), 0x0F0F_0F0F_0F0F_0F0F) * 6));
    var c := W64(b - W64(And(Shr(b, 8), 0x00FF_00FF_00FF_00FF) * 156));
    var d := W64(c - W64(And(Shr(c, 16), 0x0000_FFFF_0000_FFFF) * 55536));
    W64(d - W64(Shr(d, 32) * 4194967296))
  }

  lemma Subtracts(x: nat, y: nat)
    ensures y <= x < 0x1_0000 ==> W16(x - y) == x - y
    ensures y <= x < 0x1_0000_0000 ==> W32(x - W32(y)) == x - y
    ensures y <= x < 0x1_0000_0000_0000_0000 ==> W64(x - W64(y)) == x - y
  {}

  lemma ByteMasks(m: nat)
    ensures Mask(2, m, 256) == 0x101 * m && Mask(4, m, 256) == 0x101_0101 * m && Mask(8, m, 256) == 0x101_0101_0101_0101 * m
  {
    var L := 256;
    assert Mask(1, m, L) == Lane(m, L, Mask(0, m, L));
    assert Mask(2, m, L) == Lane(m, L, Mask(1, m, L));
    assert Mask(3, m, L) == Lane(m, L, Mask(2, m, L));
    assert Mask(4, m, L) == Lane(m, L, Mask(3, m, L));
    assert Mask(5, m, L) == Lane(m, L, Mask(4, m, L));
    assert Mask(6, m, L) == Lane(m, L, Mask(5, m, L));
    assert Mask(7, m, L) == Lane(m, L, Mask(6, m, L));
    assert Mask(8, m, L) == Lane(m, L, Mask(7, m, L));
  }

  lemma OneMask(m: nat, L: nat)
    ensures Mask(1, m, L) == m
  {
    assert Mask(1, m, L) == Lane(m, L, Mask(0, m, L));
  }

  lemma OneDigit(v: nat, b: nat, L: nat)
    requires v < b
    ensures Packed(v, 1, b, L) == v
  {
    hide Quo, Rem;
    QuoRemIs(v, b, 0, v);
    assert Packed(v, 1, b, L) == Lane(v, L, Packed(0, 0, b, L));
  }

  /** The last stage needs no mask. */
  lemma LastStage(v: nat, b: nat, k: nat)
    requires 0 < b <= Pow2(k) && 0 < b * b <= Pow2(2 * k) && v < b * b
    ensures var x := Packed(v, 2, b, Pow2(k)); x - (Pow2(k) - b) * Shr(x, k) == v
  {
    hide Pow2, Packed, Shr, And;
    var x := Packed(v, 2, b, Pow2(k));
    DecodeStage(v, 1, b, k);
    OneMask(Pow2(k) - 1, Pow2(2 * k));
    PackedFits(v, 2, b, k);
    PowDouble(k);
    ShrBelow(x, k, k);
    FullMask(Shr(x, k), k);
    OneDigit(v, b * b, Pow2(2 * k));
  }

  lemma NibbleStage(v: nat, n: nat, m: nat)
    requires m == Mask(n, 15, 256)
    ensures var x := Packed(v, 2 * n, 10, 16);
            x - 6 * And(Shr(x, 4), m) == Packed(v, n, 100, 256) && x < Pow2(8 * n)
  {
    Powers();
    hide Packed, And, Shr, Mask, Pow2;
    DecodeStage(v, n, 10, 4);
    PackedFits(v, 2 * n, 10, 4);
    assert 2 * n * 4 == 8 * n;
  }

  lemma ByteStage(v: nat, n: nat, m: nat)
    requires m == Mask(n, 255, 65536)
    ensures var x := Packed(v, 2 * n, 100, 256);
            x - 156 * And(Shr(x, 8), m) == Packed(v, n, 10000, 65536) && x < Pow2(16 * n)
  {
    Powers();
    hide Packed, And, Shr, Mask, Pow2;
    DecodeStage(v, n, 100, 8);
    PackedFits(v, 2 * n, 100, 8);
    assert 2 * n * 8 == 16 * n;
  }

  lemma DecodeU16Correct(v: nat)
    requires v < 10000
    ensures DecodeU16(Packed(v, 4, 10, 16)) == v
  {
    hide Packed, And, Shr, Mask, Pow2, W16;
    Powers();
    ByteMasks(15);
    NibbleStage(v, 2, 0x0F0F);
    var x, b := Packed(v, 4, 10, 16), Packed(v, 2, 100, 256);
    PackedFits(v, 2, 100, 8);
    Subtracts(x, And(Shr(x, 4), 0x0F0F) * 6);
    LastStage(v, 100, 8);
    Subtracts(b, Shr(b, 8) * 156);
  }

  lemma Nibbles32(v: nat)
    ensures var x := Packed(v, 8, 10, 16); W32(x - W32(And(Shr(x, 4), 0x0F0F_0F0F) * 6)) == Packed(v, 4, 100, 256)
  {
    hide Packed, And, Shr, Mask, Pow2, W32;
    Powers();
    ByteMasks(15);
    var x := Packed(v, 8, 10, 16);
    NibbleStage(v, 4, 0x0F0F_0F0F);
    Subtracts(x, And(Shr(x, 4), 0x0F0F_0F0F) * 6);
  }

  lemma Bytes32(v: nat)
    ensures var b := Packed(v, 4, 100, 256); W32(b - W32(And(Shr(b, 8), 0x00FF_00FF) * 156)) == Packed(v, 2, 10000, 65536)
  {
    hide Packed, And, Shr, Mask, Pow2, W32;
    Powers();
    Masks(255);
    var b := Packed(v, 4, 100, 256);
    ByteStage(v, 2, 0x00FF_00FF);
    Subtracts(b, And(Shr(b, 8), 0x00FF_00FF) * 156);
  }

  lemma DecodeU32Correct(v: nat)
    requires v < 100000000
    ensures DecodeU32(Packed(v, 8, 10, 16)) == v
  {
    hide Packed, And, Shr, Mask, Pow2, W32;
    Powers();
    Nibbles32(v);
    Bytes32(v);
    var c := Packed(v, 2, 10000, 65536);
    LastStage(v, 10000, 16);
    PackedFits(v, 2, 10000, 16);
    Subtracts(c, Shr(c, 16) * 55536);
  }

  lemma Nibbles64(v: nat)
    ensures var x := Packed(v, 16, 10, 16); W64(x - W64(And(Shr(x, 4), 0x0F0F_0F0F_0F0F_0F0F) * 6)) == Packed(v, 8, 100, 256)
  {
    hide Packed, And, Shr, Mask, Pow2, W64;
    Powers();
    ByteMasks(15);
    var x := Packed(v, 16, 10, 16);
    NibbleStage(v, 8, 0x0F0F_0F0F_0F0F_0F0F);
    Subtracts(x, And(Shr(x, 4), 0x0F0F_0F0F_0F0F_0F0F) * 6);
  }

  lemma Bytes64(v: nat)
    ensures var b := Packed(v, 8, 100, 256);
            W64(b - W64(And(Shr(b, 8), 0x00FF_00FF_00FF_00FF) * 156)) == Packed(v, 4, 10000, 65536)
  {
    hide Packed, And, Shr, Mask, Pow2, W64;
    Powers();
    Masks(255);
    var b := Packed(v, 8, 100, 256);
    ByteStage(v, 4, 0x00FF_00FF_00FF_00FF);
    Subtracts(b, And(Shr(b, 8), 0x00FF_00FF_00FF_00FF) * 156);
  }

  lemma Halfwords64(v: nat)
    ensures var c := Packed(v, 4, 10000, 65536);
            W64(c - W64(And(Shr(c, 16), 0x0000_FFFF_0000_FFFF) * 55536)) == Packed(v, 2, 100000000, 0x1_0000_0000)
  {
    hide Packed, And, Shr, Mask, Pow2, W64;
    Powers();
    Masks(65535);
    var c := Packed(v, 4, 10000, 65536);
    DecodeStage(v, 2, 10000, 16);
    PackedFits(v, 4, 10000, 16);
    Subtracts(c, And(Shr(c, 16), 0x0000_FFFF_0000_FFFF) * 55536);
  }

  lemma DecodeU64Correct(v: nat)
    requires v < 10000000000000000
    ensures DecodeU64(Packed(v, 16, 10, 16)) == v
  {
    hide Packed, And, Shr, Mask, Pow2, W64;
    Powers();
    Nibbles64(v);
    Bytes64(v);
    Halfwords64(v);
    var d := Packed(v, 2, 100000000, 0x1_0000_0000);
    LastStage(v, 100000000, 32);
    PackedFits(v, 2, 100000000, 32);
    Subtracts(d, Shr(d, 32) * 4194967296);
  }

  // ---------- Validity and the round trips ----------

  predicate IsValidU8(bcd: nat) {
    And(bcd, 0x0F) <= 9 && Shr(bcd, 4) <= 9
  }

  predicate IsValidU16(bcd: nat) {
    IsValidU8(W8(bcd)) && IsValidU8(W8(Shr(bcd, 8)))
  }

  predicate IsValidU32(bcd: nat) {
    IsValidU16(W16(bcd)) && IsValidU16(W16(Shr(bcd, 16)))
  }

  predicate IsValidU64(bcd: nat) {
    IsValidU32(W32(bcd)) && IsValidU32(W32(Shr(bcd, 32)))
  }

  /** `n` decimal digits, a nibble each, and nothing above them. */
  predicate Decimal(x: nat, n: nat)
    decreases n
  {
    if n == 0 then x == 0 else x % 16 <= 9 && Decimal(x / 16, n - 1)
  }

  /** The number they read. */
  function Number(x: nat, n: nat): nat
    decreases n
  {
    if n == 0 then 0 else x % 16 + 10 * Number(x / 16, n - 1)
  }

  function Pow10(n: nat): (r: nat)
    ensures r > 0
  {
    if n == 0 then 1 else 10 * Pow10(n - 1)
  }

  lemma {:induction false} NumberPacked(x: nat, n: nat)
    requires Decimal(x, n)
    ensures Packed(Number(x, n), n, 10, 16) == x && Number(x, n) < Pow10(n)
    decreases n
  {
    if n > 0 {
      NumberPacked(x / 16, n - 1);
      QuoRemIs(Number(x, n), 10, Number(x / 16, n - 1), x % 16);
      hide Quo, Rem;
    }
  }

  lemma Nibble(d: nat, rest: nat)
    requires d < 16
    ensures (d + 16 * rest) % 16 == d && (d + 16 * rest) / 16 == rest
  {}

  lemma {:induction false} PackedDecimal(v: nat, n: nat)
    ensures Decimal(Packed(v, n, 10, 16), n)
    decreases n
  {
    hide Quo, Rem;
    if n > 0 {
      PackedDecimal(Quo(v, 10), n - 1);
      QuoRem(v, 10);
      var d, rest := Rem(v, 10), Packed(Quo(v, 10), n - 1, 10, 16);
      assert Packed(v, n, 10, 16) == d + 16 * rest;
      Nibble(d, rest);
    }
  }

  lemma SixteenTimes(m: nat)
    ensures Pow2(4 * (m + 1)) == 16 * Pow2(4 * m)
  {
    Powers();
    PowSum(4, 4 * m);
    assert 4 * (m + 1) == 4 + 4 * m;
  }

  lemma {:induction false} DecimalSplit(x: nat, m: nat, n: nat)
    ensures Decimal(x, m + n) <==> Decimal(Rem(x, Pow2(4 * m)), m) && Decimal(Quo(x, Pow2(4 * m)), n)
    decreases m
  {
    hide Quo, Rem;
    if m == 0 {
      QuoRemIs(x, 1, x, 0);
    } else {
      var P, y, d := Pow2(4 * (m - 1)), x / 16, x % 16;
      SixteenTimes(m - 1);
      QuoRem(y, P);
      var q, r := Quo(y, P), Rem(y, P);
      assert 16 * (P * q) == 16 * P * q;
      QuoRemIs(x, 16 * P, q, 16 * r + d);
      DecimalSplit(y, m - 1, n);
      Nibble(d, r);
    }
  }

  lemma ValidU8(x: nat)
    requires x < 0x100
    ensures IsValidU8(x) <==> Decimal(x, 2)
  {
    hide And, Pow2;
    Powers();
    AndLow(x, 4);
    assert Decimal(x, 2) <==> x % 16 <= 9 && Decimal(x / 16, 1);
    assert Decimal(x / 16, 1) <==> x / 16 % 16 <= 9 && x / 16 / 16 == 0;
  }

  /** The checks accept exactly the words of 4, 8 and 16 decimal nibbles. */
  lemma ValidU16(x: nat)
    requires x < 0x1_0000
    ensures IsValidU16(x) <==> Decimal(x, 4)
  {
    Powers();
    hide Decimal, IsValidU8, Pow2;
    DecimalSplit(x, 2, 2);
    ValidU8(x % 0x100);
    ValidU8(x / 0x100);
  }

  lemma ValidU32(x: nat)
    requires x < 0x1_0000_0000
    ensures IsValidU32(x) <==> Decimal(x, 8)
  {
    Powers();
    hide Decimal, IsValidU16, Pow2;
    DecimalSplit(x, 4, 4);
    ValidU16(x % 0x1_0000);
    ValidU16(x / 0x1_0000);
  }

  lemma ValidU64(x: nat)
    requires x < 0x1_0000_0000_0000_0000
    ensures IsValidU64(x) <==> Decimal(x, 16)
  {
    Powers();
    hide Decimal, IsValidU32, Pow2;
    DecimalSplit(x, 8, 8);
    ValidU32(x % 0x1_0000_0000);
    ValidU32(x / 0x1_0000_0000);
  }

  lemma TenPowers()
    ensures Pow10(4) == 10000 && Pow10(8) == 100000000 && Pow10(16) == 10000000000000000
  {}

  /** Encoding is valid and decodes to the input modulo 10^4; on valid words decoding reads the digits and encodes back. */
  lemma RoundTripU16(bin: nat, bcd: nat)
    ensures IsValidU16(EncodeU16(bin)) && DecodeU16(EncodeU16(bin)) == bin % 10000
    ensures bcd < 0x1_0000 && IsValidU16(bcd) ==> DecodeU16(bcd) == Number(bcd, 4) < 10000 && EncodeU16(DecodeU16(bcd)) == bcd
  {
    hide EncodeU16, DecodeU16, IsValidU16, Packed, Decimal, Number, Pow10;
    TenPowers();
    EncodeU16Correct(bin);
    PackedDecimal(bin % 10000, 4);
    ValidU16(EncodeU16(bin));
    DecodeU16Correct(bin % 10000);
    if bcd < 0x1_0000 && IsValidU16(bcd) {
      ValidU16(bcd);
      NumberPacked(bcd, 4);
      DecodeU16Correct(Number(bcd, 4));
      EncodeU16Correct(Number(bcd, 4));
    }
  }

  /** The same for eight digits. */
  lemma RoundTripU32(bin: nat, bcd: nat)
    ensures IsValidU32(EncodeU32(bin)) && DecodeU32(EncodeU32(bin)) == bin % 100000000
    ensures bcd < 0x1_0000_0000 && IsValidU32(bcd) ==>
              DecodeU32(bcd) == Number(bcd, 8) < 100000000 && EncodeU32(DecodeU32(bcd)) == bcd
  {
    hide EncodeU32, DecodeU32, IsValidU32, Packed, Decimal, Number, Pow10;
    TenPowers();
    EncodeU32Correct(bin);
    PackedDecimal(bin % 100000000, 8);
    ValidU32(EncodeU32(bin));
    DecodeU32Correct(bin % 100000000);
    if bcd < 0x1_0000_0000 && IsValidU32(bcd) {
      ValidU32(bcd);
      NumberPacked(bcd, 8);
      DecodeU32Correct(Number(bcd, 8));
      EncodeU32Correct(Number(bcd, 8));
    }
  }

  /** The same for sixteen digits. */
  lemma RoundTripU64(bin: nat, bcd: nat)
    ensures IsValidU64(EncodeU64(bin)) && DecodeU64(EncodeU64(bin)) == bin % 10000000000000000
    ensures bcd < 0x1_0000_0000_0000_0000 && IsValidU64(bcd) ==>
              DecodeU64(bcd) == Number(bcd, 16) < 10000000000000000 && EncodeU64(DecodeU64(bcd)) == bcd
  {
    hide EncodeU64, DecodeU64, IsValidU64, Packed, Decimal, Number, Pow10;
    TenPowers();
    EncodeU64Correct(bin);
    PackedDecimal(bin % 10000000000000000, 16);
    ValidU64(EncodeU64(bin));
    DecodeU64Correct(bin % 10000000000000000);
    if bcd < 0x1_0000_0000_0000_0000 && IsValidU64(bcd) {
      ValidU64(bcd);
      NumberPacked(bcd, 16);
      DecodeU64Correct(Number(bcd, 16));
      EncodeU64Correct(Number(bcd, 16));
    }
  }
}
