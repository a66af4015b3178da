/** Unsigned 64-bit integers to floating point on a machine that only converts signed ones: halve
    the value, keep the lost bit, convert, double.  Rounding is to nearest, ties to even, as in
    section 4.3.1 of IEEE 754-2008; no result is large enough to overflow. */
module StickyBit {
  function Pow2(n: nat): (r: nat)
    ensures r > 0
  {
    if n == 0 then 1 else 2 * Pow2(n - 1)
  }

  lemma {:induction false} PowMono(a: nat, b: nat)
    requires a <= b
    ensures Pow2(a) <= Pow2(b)
    decreases b - a
  {
    if a < b {
      PowMono(a, b - 1);
    }
  }

  /** How many low bits do not fit in a significand of `p` bits. */
  function Excess(x: nat, p: nat): (e: nat)
    ensures x < Pow2(p + e)
    ensures e > 0 ==> Pow2(p + e - 1) <= x
    decreases x
  {
    PowPositive(p);
    if x < Pow2(p) then 0 else
    var e := Excess(x / 2, p);
    assert Pow2(p + e + 1) == 2 * Pow2(p + e);
    assert e == 0 ==> Pow2(p + e) <= x;
    assert e > 0 ==> Pow2(p + e) == 2 * Pow2(p + e - 1);
    e + 1
  }

  lemma PowPositive(p: nat)
    ensures Pow2(p) >= 1
  {
  }

  /** Whether the significand `q` with the cut-off part `r` out of `2 * half` is rounded up. */
  predicate RoundsUp(q: nat, r: nat, half: nat) {
    r > half || (r == half && q % 2 == 1)
  }

  function Times(a: nat, b: nat): nat {
    a * b
  }

  function Quotient(x: nat, m: nat): nat
    requires m > 0
  {
    x / m
  }

  function Remainder(x: nat, m: nat): nat
    requires m > 0
  {
    x % m
  }

  function Significand(q: nat, r: nat, half: nat): nat {
    if RoundsUp(q, r, half) then q + 1 else q
  }

  /** The value of the conversion instruction at precision `p`. */
  function RoundTo(x: nat, p: nat): nat {
    var e := Excess(x, p);
    if e == 0 then x else
    var u := Pow2(e);
    Times(Significand(Quotient(x, u), Remainder(x, u), Pow2(e - 1)), u)
  }

  /** `shr temp, 1; and reg, 1; or reg, temp`: a disjunction with a value of 0 or 1. */
  function StickyHalf(x: nat): nat {
    if x % 2 == 1 && x / 2 % 2 == 0 then x / 2 + 1 else x / 2
  }

  /** The instruction sequence: convert directly below 2^63, otherwise halve, convert and double. */
  function ConvertUnsigned(x: nat, p: nat): nat {
    if x < Pow2(63) then RoundTo(x, p) else 2 * RoundTo(StickyHalf(x), p)
  }

  lemma ExcessIs(x: nat, p: nat, e: nat)
    requires e > 0 && Pow2(p + e - 1) <= x < Pow2(p + e)
    ensures Excess(x, p) == e
  {
    var d := Excess(x, p);
    if d < e {
      PowMono(p + d, p + e - 1);
    } else if e < d {
      PowMono(p + e, p + d - 1);
    }
  }

  lemma DivMod(x: nat, m: nat)
    requires m > 0
    ensures x == Times(Quotient(x, m), m) + Remainder(x, m) && Remainder(x, m) < m
  {
  }

  lemma {:induction false} Closer(a: nat, b: nat, u: nat)
    requires a < b
    ensures Times(a, u) + u <= Times(b, u)
    decreases b
  {
    NextMultiple(b - 1, u);
    hide Times;
    if a < b - 1 {
      Closer(a, b - 1, u);
    }
  }

  lemma NextMultiple(q: nat, u: nat)
    ensures Times(q + 1, u) == Times(q, u) + u
  {
  }

  lemma SplitQuotient(x: nat, q: nat, r: nat, m: nat)
    requires m > 0 && x == Times(q, m) + r && r < m
    ensures Quotient(x, m) == q && Remainder(x, m) == r
  {
    DivMod(x, m);
    var a := Quotient(x, m);
    hide Times, Quotient, Remainder;
    if a < q {
      Closer(a, q, m);
    } else if q < a {
      Closer(q, a, m);
    }
  }

  lemma TwiceProduct(q: nat, m: nat)
    ensures Times(q, 2 * m) == 2 * Times(q, m)
  {
  }

  /** Halving with the sticky bit halves the cut-off part the same way and keeps the significand. */
  lemma HalfSplit(x: nat, q: nat, r: nat, half: nat)
    requires half > 0 && x == Times(q, 4 * half) + r && r < 4 * half
    ensures StickyHalf(x) == Times(q, 2 * half) + StickyHalf(r) && StickyHalf(r) < 2 * half
  {
    TwiceProduct(q, 2 * half);
    TwiceProduct(q, half);
    hide Times, StickyHalf;
    AddMultiple(Times(q, half), r);
    StickySmall(r, half);
  }

  lemma AddMultiple(k: nat, r: nat)
    ensures StickyHalf(4 * k + r) == 2 * k + StickyHalf(r)
  {
    assert (4 * k + r) / 2 == 2 * k + r / 2;
  }

  lemma StickySmall(r: nat, half: nat)
    requires r < 4 * half
    ensures StickyHalf(r) < 2 * half
  {
  }

  /** Comparing the cut-off part with one half gives the same answer after halving. */
  lemma SameDecision(q: nat, r: nat, half: nat)
    requires half > 0 && half % 2 == 0
    ensures RoundsUp(q, StickyHalf(r), half) <==> RoundsUp(q, r, 2 * half)
  {
  }

  lemma StickyRange(x: nat)
    requires Pow2(63) <= x < Pow2(64)
    ensures Pow2(62) <= StickyHalf(x) < Pow2(63)
  {
    assert Pow2(64) == 2 * Pow2(63) && Pow2(63) == 2 * Pow2(62) && Pow2(62) == 2 * Pow2(61);
  }

  /** Rounding the halved value and doubling is rounding the value. */
  lemma StickyRounds(x: nat, p: nat)
    requires Pow2(63) <= x < Pow2(64) && 1 <= p <= 61
    ensures 2 * RoundTo(StickyHalf(x), p) == RoundTo(x, p)
  {
    hide Pow2, Excess, StickyHalf, Times, Quotient, Remainder, Significand;
    var e := 64 - p;
    StickyRange(x);
    ExcessIs(x, p, e);
    ExcessIs(StickyHalf(x), p, e - 1);
    var half := Pow2(e - 2);
    Doubles(e);
    HalfSignificand(x, half);
    TwiceProduct(Significand(Quotient(x, 4 * half), Remainder(x, 4 * half), 2 * half), 2 * half);
  }

  lemma HalfSignificand(x: nat, half: nat)
    requires half > 0 && half % 2 == 0
    ensures Significand(Quotient(StickyHalf(x), 2 * half), Remainder(StickyHalf(x), 2 * half), half) ==
            Significand(Quotient(x, 4 * half), Remainder(x, 4 * half), 2 * half)
  {
    hide StickyHalf, Times, Quotient, Remainder;
    var q, r := Quotient(x, 4 * half), Remainder(x, 4 * half);
    DivMod(x, 4 * half);
    HalfSplit(x, q, r, half);
    SplitQuotient(StickyHalf(x), q, StickyHalf(r), 2 * half);
    SameDecision(q, r, half);
  }

  lemma Doubles(e: nat)
    requires e >= 3
    ensures Pow2(e) == 2 * Pow2(e - 1) && Pow2(e - 1) == 2 * Pow2(e - 2) && Pow2(e - 2) % 2 == 0
  {
    assert Pow2(e - 2) == 2 * Pow2(e - 3);
  }

  function Distance(a: nat, b: nat): nat {
    if a <= b then b - a else a - b
  }

  /** A number with a significand of `p` bits. */
  ghost predicate Representable(z: nat, p: nat) {
    exists m: nat, k: nat :: Times(m, Pow2(k)) == z && m < Pow2(p)
  }

  /** A number whose significand, written with `p` bits, is even. */
  ghost predicate EvenSignificand(y: nat, p: nat) {
    exists m: nat, k: nat :: Times(m, Pow2(k)) == y && Pow2(p) <= 2 * m <= 2 * Pow2(p) && m % 2 == 0
  }

  /** `roundTiesToEven`: the result is representable, no representable number is closer, and where
      another one is as close the result is the even one. */
  ghost predicate CorrectlyRounded(x: nat, y: nat, p: nat) {
    && Representable(y, p)
    && forall z :: Representable(z, p) ==>
         && Distance(y, x) <= Distance(z, x)
         && (Distance(y, x) == Distance(z, x) && z != y ==> EvenSignificand(y, p))
  }

  /** The sequence is correctly rounded for every unsigned 64-bit value, at the precisions of both
      formats and at every other one that leaves a bit to round. */
  lemma ConversionCorrect(x: nat, p: nat)
    requires x < Pow2(64) && 1 <= p <= 61
    ensures CorrectlyRounded(x, ConvertUnsigned(x, p), p)
  {
    hide CorrectlyRounded, RoundTo, StickyHalf;
    RoundCorrect(x, p);
    if x >= Pow2(63) {
      StickyRounds(x, p);
    }
  }

  /** The conversion instruction is correctly rounded. */
  lemma RoundCorrect(x: nat, p: nat)
    requires p >= 1
    ensures CorrectlyRounded(x, RoundTo(x, p), p)
  {
    hide Excess, Pow2, Times, Quotient, Remainder, Significand, EvenSignificand;
    var e := Excess(x, p);
    if e == 0 {
      TimesOne(x);
      assert Representable(x, p);
    } else {
      RoundedFits(x, p);
      forall z | Representable(z, p)
        ensures Distance(RoundTo(x, p), x) <= Distance(z, x)
        ensures Distance(RoundTo(x, p), x) == Distance(z, x) && z != RoundTo(x, p) ==> EvenSignificand(RoundTo(x, p), p)
      {
        var m: nat, k: nat :| Times(m, Pow2(k)) == z && m < Pow2(p);
        RoundedClosest(x, p, m, k);
      }
    }
  }

  lemma TimesOne(x: nat)
    ensures Times(x, Pow2(0)) == x
  {
  }

  /** The rounded significand has at most `p` bits, or is the next power of two. */
  lemma RoundedFits(x: nat, p: nat)
    requires p >= 1 && Excess(x, p) > 0
    ensures var u, h := Pow2(Excess(x, p)), Pow2(Excess(x, p) - 1);
            && Pow2(p) <= 2 * Quotient(x, u) && Quotient(x, u) < Pow2(p)
            && Representable(Times(Significand(Quotient(x, u), Remainder(x, u), h), u), p)
  {
    var e := Excess(x, p);
    var u := Pow2(e);
    hide Excess, Quotient, Remainder, RoundsUp;
    DivMod(x, u);
    var q, n := Quotient(x, u), Significand(Quotient(x, u), Remainder(x, u), Pow2(e - 1));
    PowSum(p, e);
    PowSum(p - 1, e);
    hide Pow2;
    HalfOf(p);
    NextMultiple(q, u);
    if q >= Pow2(p) {
      CloserOrSame(Pow2(p), q, u);
    }
    if q < Pow2(p - 1) {
      CloserOrSame(q + 1, Pow2(p - 1), u);
    }
    if n == Pow2(p) {
      HalfOf(e + 1);
      Regroup(Pow2(p - 1), u);
      assert Times(Pow2(p - 1), Pow2(e + 1)) == Times(n, u);
    }
  }

  lemma Regroup(a: nat, u: nat)
    ensures Times(a, 2 * u) == Times(2 * a, u)
  {
  }

  lemma CloserOrSame(a: nat, b: nat, u: nat)
    requires a <= b
    ensures Times(a, u) <= Times(b, u)
  {
    if a < b {
      Closer(a, b, u);
    }
  }

  lemma {:induction false} PowSum(a: nat, b: nat)
    ensures Pow2(a + b) == Times(Pow2(a), Pow2(b))
    decreases a
  {
    if a > 0 {
      PowSum(a - 1, b);
      Regroup(Pow2(a - 1), Pow2(b));
      TwiceProduct(Pow2(a - 1), Pow2(b));
    }
  }

  /** No number with a significand of `p` bits is closer. */
  lemma RoundedClosest(x: nat, p: nat, m: nat, k: nat)
    requires p >= 1 && Excess(x, p) > 0 && m < Pow2(p)
    ensures var y, z := RoundTo(x, p), Times(m, Pow2(k));
            && Distance(y, x) <= Distance(z, x)
            && (Distance(y, x) == Distance(z, x) && z != y ==> EvenSignificand(y, p))
  {
    hide Excess, EvenSignificand, Times, Pow2, RoundTo;
    var e := Excess(x, p);
    if k >= e {
      Coarser(m, k, e);
      MultipleNotCloser(x, p, Times(m, Pow2(k - e)));
    } else {
      FinerIsBelow(x, p, m, k);
      MultipleNotCloser(x, p, Pow2(p - 1));
    }
  }

  lemma MultipleNotCloser(x: nat, p: nat, k: nat)
    requires p >= 1 && Excess(x, p) > 0
    ensures var y, z := RoundTo(x, p), Times(k, Pow2(Excess(x, p)));
            && Distance(y, x) <= Distance(z, x)
            && (Distance(y, x) == Distance(z, x) && z != y ==> EvenSignificand(y, p))
  {
    hide Excess, EvenSignificand, Times, Pow2, Quotient, Remainder, Significand;
    var e := Excess(x, p);
    HalfOf(e);
    NearestMultiple(x, Pow2(e - 1), k);
    var n := Significand(Quotient(x, Pow2(e)), Remainder(x, Pow2(e)), Pow2(e - 1));
    if n % 2 == 0 {
      EvenIs(x, p, n);
    }
  }

  /** A number on a finer grid lies below the power of two at or below the value. */
  lemma FinerIsBelow(x: nat, p: nat, m: nat, k: nat)
    requires p >= 1 && m < Pow2(p) && k < Excess(x, p)
    ensures Times(m, Pow2(k)) < Times(Pow2(p - 1), Pow2(Excess(x, p))) <= x
  {
    var e := Excess(x, p);
    assert Pow2(p + e - 1) <= x;
    hide Times, Pow2;
    PowSum(p - 1, e);
    assert p - 1 + e == p + e - 1;
    FinerIsLess(m, p, k, e);
  }

  lemma FinerIsLess(m: nat, p: nat, k: nat, e: nat)
    requires p >= 1 && m < Pow2(p) && k < e
    ensures Times(m, Pow2(k)) < Pow2(p + e - 1)
  {
    hide Times, Pow2;
    PowMono(k, e - 1);
    PowSum(p, e - 1);
    Below(m, Pow2(p), Pow2(k), Pow2(e - 1));
  }

  /** There is only one correctly rounded result. */
  lemma RoundingUnique(x: nat, y: nat, z: nat, p: nat)
    requires p >= 2 && CorrectlyRounded(x, y, p) && CorrectlyRounded(x, z, p)
    ensures y == z
  {
    hide Representable, EvenSignificand;
    if y < z {
      NotBothEven(x, y, z, p);
    } else if z < y {
      NotBothEven(x, z, y, p);
    }
  }

  /** Of two neighbours at most one has an even significand. */
  lemma NotBothEven(x: nat, y: nat, z: nat, p: nat)
    requires p >= 2 && y < z && CorrectlyRounded(x, y, p)
    ensures !CorrectlyRounded(x, z, p)
  {
    hide Representable, Times, Pow2;
    if Distance(y, x) == Distance(z, x) && EvenSignificand(y, p) && EvenSignificand(z, p) {
      var m, k := EvenBelowTop(y, p);
      var n: nat, l: nat :| Times(n, Pow2(l)) == z && Pow2(p) <= 2 * n <= 2 * Pow2(p) && n % 2 == 0;
      Successor(m, k, p);
      OddNeighbour(m, k, n, l, p);
    }
  }

  lemma EvenBelowTop(y: nat, p: nat) returns (m: nat, k: nat)
    requires p >= 2 && EvenSignificand(y, p)
    ensures Times(m, Pow2(k)) == y && Pow2(p) <= 2 * m && m < Pow2(p) && m % 2 == 0
  {
    hide Times, Pow2;
    m, k :| Times(m, Pow2(k)) == y && Pow2(p) <= 2 * m <= 2 * Pow2(p) && m % 2 == 0;
    if m == Pow2(p) {
      HalfOf(p);
      HalfOf(p - 1);
      HalfOf(k + 1);
      Regroup(Pow2(p - 1), Pow2(k));
      m, k := Pow2(p - 1), k + 1;
    }
  }

  lemma Successor(m: nat, k: nat, p: nat)
    requires p >= 1 && m < Pow2(p) && m % 2 == 0
    ensures Representable(Times(m + 1, Pow2(k)), p) && Times(m, Pow2(k)) < Times(m + 1, Pow2(k))
  {
    hide Times, Pow2, Representable;
    OddFits(m, p);
    HasForm(m + 1, k, p);
    NextMultiple(m, Pow2(k));
  }

  lemma OddFits(m: nat, p: nat)
    requires p >= 1 && m < Pow2(p) && m % 2 == 0
    ensures m + 1 < Pow2(p)
  {
    HalfOf(p);
  }

  lemma HasForm(m: nat, k: nat, p: nat)
    requires m < Pow2(p)
    ensures Representable(Times(m, Pow2(k)), p)
  {
    hide Times, Pow2;
  }

  lemma OddNeighbour(m: nat, k: nat, n: nat, l: nat, p: nat)
    requires p >= 1 && m % 2 == 0 && n % 2 == 0 && Pow2(p) <= 2 * m && n <= Pow2(p)
    requires Times(m, Pow2(k)) < Times(n, Pow2(l))
    ensures Times(m + 1, Pow2(k)) < Times(n, Pow2(l))
  {
    hide Times, Pow2;
    if l < k {
      HalfOf(p);
      PowSum(p, l);
      PowSum(p - 1, k);
      PowMono(p + l, p - 1 + k);
      CloserOrSame(n, Pow2(p), Pow2(l));
      CloserOrSame(Pow2(p - 1), m, Pow2(k));
    } else {
      Coarser(n, l, k);
      var q := Times(n, Pow2(l - k));
      EvenTimes(n, Pow2(l - k));
      if q <= m {
        CloserOrSame(q, m, Pow2(k));
      } else {
        Closer(m + 1, q, Pow2(k));
      }
    }
  }

  lemma EvenTimes(n: nat, a: nat)
    requires n % 2 == 0
    ensures Times(n, a) % 2 == 0
  {
    assert n == 2 * (n / 2);
    Regroup(n / 2, a);
    TwiceProduct(n / 2, a);
  }

  lemma Coarser(m: nat, k: nat, e: nat)
    requires e <= k
    ensures Times(m, Pow2(k)) == Times(Times(m, Pow2(k - e)), Pow2(e))
  {
    hide Times, Pow2;
    PowSum(k - e, e);
    Assoc(m, Pow2(k - e), Pow2(e));
  }

  lemma Assoc(m: nat, a: nat, u: nat)
    ensures Times(m, Times(a, u)) == Times(Times(m, a), u)
  {
  }

  lemma Below(m: nat, n: nat, a: nat, b: nat)
    requires m < n && 0 < a <= b
    ensures Times(m, a) < Times(n, b)
  {
    Closer(m, n, a);
    assert Times(n, a) <= Times(n, b);
  }

  lemma EvenIs(x: nat, p: nat, n: nat)
    requires p >= 1 && Excess(x, p) > 0
    requires var u := Pow2(Excess(x, p));
             n == Significand(Quotient(x, u), Remainder(x, u), Pow2(Excess(x, p) - 1)) && n % 2 == 0
    ensures EvenSignificand(Times(n, Pow2(Excess(x, p))), p)
  {
    hide Excess, Pow2, Times, Quotient, Remainder;
    RoundedFits(x, p);
  }

  lemma HalfOf(e: nat)
    requires e > 0
    ensures Pow2(e) == 2 * Pow2(e - 1)
  {
  }

  lemma NearestMultiple(x: nat, half: nat, k: nat)
    requires half > 0
    ensures var u := 2 * half; var n := Significand(Quotient(x, u), Remainder(x, u), half);
            && Quotient(Times(n, u), u) == n
            && Distance(Times(n, u), x) <= Distance(Times(k, u), x)
            && (Distance(Times(n, u), x) == Distance(Times(k, u), x) && k != n ==> n % 2 == 0)
  {
    hide Times, Quotient, Remainder;
    var u := 2 * half;
    var q, r := Quotient(x, u), Remainder(x, u);
    DivMod(x, u);
    SplitQuotient(Times(Significand(q, r, half), u), Significand(q, r, half), 0, u);
    NextMultiple(q, u);
    if k < q {
      Closer(k, q, u);
    } else if k > q + 1 {
      Closer(q + 1, k, u);
    }
  }

  // ---------------------------------------------------------------- the three instructions

  /** `shr temp, 1`, `and reg, 1` and `or reg, temp` on register contents. */
  function Shr(x: int, n: int): int {
    if x >= 0 && n == 1 then x / 2 else x
  }

  function And(x: int, mask: int): int {
    if x >= 0 && mask == 1 then x % 2 else x
  }

  function Or(bit: int, y: int): int {
    if bit == 1 && y % 2 == 0 then y + 1 else y
  }

  lemma StickyByInstructions(x: nat)
    ensures Or(And(x, 1), Shr(x, 1)) == StickyHalf(x)
  {
  }

  lemma StickyDiffers(x: nat)
    requires Pow2(63) <= x < Pow2(64)
    ensures StickyHalf(x) != x
  {
    StickyRange(x);
  }
}
