/** The conversion of an integer to the binary32 format, rounding to the nearest
    representable value with ties to even (section 4.3.1 of IEEE 754-2008). */
module Float32 {

  /** A significand has 24 bits. */
  const SIGNIFICAND: nat := 0x100_0000

  function Pow2(e: nat): (p: nat)
    ensures p >= 1
  {
    if e == 0 then 1 else 2 * Pow2(e - 1)
  }

  /** The integers that binary32 represents exactly (exponent range aside). */
  ghost predicate Representable(m: nat) {
    exists s: nat, e: nat {:trigger s * Pow2(e)} :: s < SIGNIFICAND && m == s * Pow2(e)
  }

  /** The exponent that leaves a 24-bit significand. */
  function Exponent(n: nat): (e: nat)
    ensures n < SIGNIFICAND * Pow2(e)
    ensures e > 0 ==> SIGNIFICAND / 2 * Pow2(e) <= n
  {
    if n < SIGNIFICAND then 0 else Exponent(n / 2) + 1
  }

  /** The multiple of u nearest to n, the even one of two. */
  function Nearest(n: nat, u: nat): nat
    requires u >= 1
  {
    var q, r := n / u, n % u;
    if 2 * r < u || (2 * r == u && q % 2 == 0) then q * u else (q + 1) * u
  }

  /** (float)n */
  function Round(n: nat): nat {
    Nearest(n, Pow2(Exponent(n)))
  }

  function Distance(a: nat, b: nat): nat {
    if a < b then b - a else a - b
  }

  lemma {:induction false} Pow2Sum(a: nat, b: nat)
    ensures Pow2(a + b) == Pow2(a) * Pow2(b)
  {
    if a > 0 {
      Pow2Sum(a - 1, b);
      assert Pow2(a + b) == 2 * (Pow2(a - 1) * Pow2(b));
    }
  }

  lemma {:induction false} Pow2Monotone(a: nat, b: nat)
    requires a <= b
    ensures Pow2(a) <= Pow2(b)
  {
    Pow2Sum(a, b - a);
    MulAtLeast(Pow2(a), Pow2(b - a));
  }

  lemma MulAtLeast(a: nat, b: nat)
    requires b >= 1
    ensures a <= a * b
  {
  }

  lemma MulAssoc(a: nat, b: nat, c: nat)
    ensures a * b * c == a * (b * c)
  {
  }

  lemma MulLess(s: nat, t: nat, u: nat)
    requires s * u < t * u
    ensures s < t
  {
  }

  lemma MulLeq(s: nat, t: nat, u: nat)
    requires s <= t
    ensures s * u <= t * u
  {
  }

  lemma NearestAround(n: nat, u: nat) returns (q: nat, lo: nat)
    requires u >= 1
    ensures lo == q * u && (q + 1) * u == lo + u && lo <= n < lo + u
    ensures Nearest(n, u) == lo || (Nearest(n, u) == lo + u && n != lo)
    ensures 2 * Distance(Nearest(n, u), n) <= u
    ensures 2 * Distance(Nearest(n, u), n) == u ==> Nearest(n, u) == if q % 2 == 0 then lo else lo + u
  {
    q := n / u;
    lo := q * u;
    assert n == lo + n % u;
    assert (q + 1) * u == lo + u;
  }

  /** Round(n) is one of the two multiples of the unit in the last place around n, the closer one. */
  lemma RoundAround(n: nat) returns (u: nat, q: nat, lo: nat)
    ensures u == Pow2(Exponent(n)) && lo == q * u && (q + 1) * u == lo + u
    ensures lo <= n < lo + u && q < SIGNIFICAND
    ensures Round(n) == lo || (Round(n) == lo + u && n != lo)
    ensures 2 * Distance(Round(n), n) <= u
    ensures 2 * Distance(Round(n), n) == u ==> Round(n) == if q % 2 == 0 then lo else lo + u
  {
    u := Pow2(Exponent(n));
    q, lo := NearestAround(n, u);
    MulLess(q, SIGNIFICAND, u);
  }

  lemma PowersOfTwo()
    ensures Pow2(7) == 128 && Pow2(8) == 256 && Pow2(24) == SIGNIFICAND
  {
    assert Pow2(8) == 256;
    Pow2Sum(8, 8);
    Pow2Sum(8, 16);
  }

  /** A value with a smaller exponent than n lies below the binade of n. */
  lemma SmallExponent(s: nat, f: nat, e: nat)
    requires s < SIGNIFICAND && f < e
    ensures s * Pow2(f) < SIGNIFICAND / 2 * Pow2(e)
  {
    Pow2Monotone(f, e - 1);
    var h := Pow2(e - 1);
    assert Pow2(e) == 2 * h;
    MulLeq(Pow2(f), h, s);
    assert s * Pow2(f) <= s * h by {
      assert Pow2(f) * s == s * Pow2(f) && h * s == s * h;
    }
    MulLeq(s + 1, SIGNIFICAND, h);
  }

  lemma SplitExponent(s: nat, f: nat, e: nat) returns (a: nat)
    requires e <= f
    ensures s * Pow2(f) == a * Pow2(e)
  {
    Pow2Sum(f - e, e);
    a := s * Pow2(f - e);
    MulAssoc(s, Pow2(f - e), Pow2(e));
  }

  /** A representable value is a multiple of the unit of n, or lies below the binade of n. */
  lemma RepresentableShape(n: nat, m: nat) returns (a: nat)
    requires Representable(m)
    ensures m == a * Pow2(Exponent(n)) || m < SIGNIFICAND / 2 * Pow2(Exponent(n)) <= n
  {
    var e := Exponent(n);
    var s: nat, f: nat :| s < SIGNIFICAND && m == s * Pow2(f);
    if f >= e {
      a := SplitExponent(s, f, e);
    } else {
      SmallExponent(s, f, e);
      a := 0;
    }
  }

  /** No representable value lies strictly between the two candidates of RoundAround. */
  lemma RepresentableGap(n: nat, m: nat, u: nat, q: nat, lo: nat)
    requires u == Pow2(Exponent(n)) && lo == q * u && (q + 1) * u == lo + u
    requires lo <= n < lo + u
    requires Representable(m)
    ensures m <= lo || m >= lo + u
  {
    var a := RepresentableShape(n, m);
    if m == a * u {
      if a <= q { MulLeq(a, q, u); } else { MulLeq(q + 1, a, u); }
    } else {
      MulLess(SIGNIFICAND / 2, q + 1, u);
      MulLeq(SIGNIFICAND / 2, q, u);
    }
  }

  lemma RoundRepresentable(n: nat)
    ensures Representable(Round(n))
  {
    var u, q, lo := RoundAround(n);
    var e := Exponent(n);
    if Round(n) == lo {
      assert Round(n) == q * Pow2(e);
    } else if q + 1 < SIGNIFICAND {
      assert Round(n) == (q + 1) * Pow2(e);
    } else {
      assert Round(n) == 1 * Pow2(e + 24) by {
        Pow2Sum(e, 24);
        PowersOfTwo();
      }
    }
  }

  /** Round(n) is a multiple of twice the unit in the last place: its significand is even. */
  ghost predicate EvenSignificand(n: nat) {
    exists k: nat {:trigger 2 * k} :: Round(n) == 2 * k * Pow2(Exponent(n))
  }

  lemma TieIsEven(n: nat, u: nat, q: nat, lo: nat)
    requires u == Pow2(Exponent(n)) && lo == q * u && (q + 1) * u == lo + u
    requires Round(n) == if q % 2 == 0 then lo else lo + u
    ensures EvenSignificand(n)
  {
    var k := (q + 1) / 2;
    assert Round(n) == 2 * k * Pow2(Exponent(n));
  }

  /** Round(n) is the representable value nearest to n; of two equally near ones it takes
      the one with an even significand. */
  lemma RoundIsNearestEven(n: nat, m: nat)
    requires Representable(m)
    ensures Representable(Round(n))
    ensures Distance(Round(n), n) <= Distance(m, n)
    ensures Distance(Round(n), n) == Distance(m, n) && m != Round(n) ==> EvenSignificand(n)
  {
    RoundRepresentable(n);
    var u, q, lo := RoundAround(n);
    RepresentableGap(n, m, u, q, lo);
    if Distance(Round(n), n) == Distance(m, n) && m != Round(n) {
      TieIsEven(n, u, q, lo);
    }
  }

  /** Rounding never crosses a representable value. */
  lemma RoundKeepsOrder(n: nat, m: nat)
    requires Representable(m)
    ensures n <= m ==> Round(n) <= m
    ensures m <= n ==> m <= Round(n)
  {
    var u, q, lo := RoundAround(n);
    RepresentableGap(n, m, u, q, lo);
  }

  /** The rounding error of an integer below 2^31 is at most 64, and there is none up to 2^24. */
  lemma RoundError(n: nat)
    requires n < 0x8000_0000
    ensures Distance(Round(n), n) <= 64
    ensures n <= SIGNIFICAND ==> Round(n) == n
  {
    var u, q, lo := RoundAround(n);
    SmallUnit(n);
    if n <= SIGNIFICAND {
      SmallRepresentable(n);
      RoundKeepsOrder(n, n);
    }
  }

  lemma SmallUnit(n: nat)
    requires n < 0x8000_0000
    ensures Pow2(Exponent(n)) <= 128
  {
    var e := Exponent(n);
    PowersOfTwo();
    if e >= 8 {
      Pow2Monotone(8, e);
    } else {
      Pow2Monotone(e, 7);
    }
  }

  lemma SmallRepresentable(n: nat)
    requires n <= SIGNIFICAND
    ensures Representable(n)
  {
    if n < SIGNIFICAND {
      assert n == n * Pow2(0);
    } else {
      assert Pow2(1) == 2;
      assert n == SIGNIFICAND / 2 * Pow2(1);
    }
  }
}
