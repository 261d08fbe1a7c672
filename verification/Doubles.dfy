/**
 * 64-bit floating point numbers as far as the engine's own conversions go. A finite f64 is its real
 * value; among the integers, the doubles are those with a 53-bit significand. Arithmetic rounds by a
 * function the model leaves open.
 */
module Doubles {
  import opened Wrappers

  /** What an arithmetic result becomes as an f64: None when it is not finite. */
  type Rounding = real -> Option<real>

  /** 2^53, and the distance from 1.0 to the next double. */
  const SIGNIFICAND: int := 0x20_0000_0000_0000
  const EPSILON: real := 1.0 / 4503599627370496.0
  const U64_MAX: nat := 0xffff_ffff_ffff_ffff
  const TWO_64: nat := 0x1_0000_0000_0000_0000
  const TWO_63: nat := 0x8000_0000_0000_0000

  function Pow2(k: nat): (p: nat)
    ensures p >= 1
  {
    if k == 0 then 1 else 2 * Pow2(k - 1)
  }

  ghost predicate Scaled(n: int, m: int, k: nat) {
    -SIGNIFICAND <= m <= SIGNIFICAND && n == m * Pow2(k)
  }

  /** The integer is the value of some f64. */
  ghost predicate IsDouble(n: int) {
    exists m, k :: Scaled(n, m, k)
  }

  /** The real may be the value of an f64: if it is an integer, that integer is a double. */
  ghost predicate MaybeDouble(r: real) {
    r == r.Floor as real ==> IsDouble(r.Floor)
  }

  /** The spacing of doubles at n. */
  function Quantum(n: nat): (q: nat)
    ensures q >= 1
  {
    if n < SIGNIFICAND then 1 else 2 * Quantum(n / 2)
  }

  /** To the nearest multiple of q, ties to an even one. */
  function RoundAt(n: nat, q: nat): int
    requires q >= 1
  {
    var down := n / q;
    if 2 * (n % q) < q || (2 * (n % q) == q && down % 2 == 0) then down * q else (down + 1) * q
  }

  /** An integer cast to f64: to the nearest double, ties to an even significand. */
  function RoundToDouble(n: int): int {
    if n < 0 then -RoundAt(-n, Quantum(-n)) else RoundAt(n, Quantum(n))
  }

  lemma {:induction false} QuantumFacts(n: nat) returns (j: nat)
    ensures Quantum(n) == Pow2(j)
    ensures n < SIGNIFICAND * Pow2(j)
    ensures j > 0 ==> 2 * n >= SIGNIFICAND * Pow2(j)
  {
    if n < SIGNIFICAND {
      j := 0;
    } else {
      var i := QuantumFacts(n / 2);
      j := i + 1;
    }
  }

  lemma {:induction false} Pow2Sum(a: nat, b: nat)
    ensures Pow2(a + b) == Pow2(a) * Pow2(b)
  {
    if a > 0 {
      Pow2Sum(a - 1, b);
      assert Pow2(a) * Pow2(b) == 2 * (Pow2(a - 1) * Pow2(b));
    }
  }

  /** The widths behind the constants: 53 bits of significand, 64 bits of integers. */
  lemma WidthsAre()
    ensures SIGNIFICAND == Pow2(53) && EPSILON * Pow2(52) as real == 1.0
    ensures TWO_63 == Pow2(63) && TWO_64 == Pow2(64) && U64_MAX == Pow2(64) - 1
  {
    assert Pow2(10) == 1024 && Pow2(11) == 2048 && Pow2(12) == 4096;
    Pow2Sum(10, 10);
    Pow2Sum(20, 20);
    Pow2Sum(40, 12);
    assert Pow2(52) == 0x10_0000_0000_0000;
    Pow2Sum(52, 11);
    assert Pow2(53) == 2 * Pow2(52) && Pow2(64) == 2 * Pow2(63);
  }

  lemma TimesNext(a: int, b: int, q: int)
    requires a < b && q >= 0
    ensures a * q + q <= b * q
  {
    assert b * q - a * q == (b - a) * q;
    assert (b - a) * q == q + (b - a - 1) * q;
  }

  lemma EuclidUnique(d: int, r: int, e: int, s: int, q: int)
    requires d * q + r == e * q + s && 0 <= r < q && 0 <= s < q
    ensures d == e && r == s
  {
    if d < e {
      TimesNext(d, e, q);
    } else if e < d {
      TimesNext(e, d, q);
    }
  }

  lemma DivideExactly(c: int, q: int)
    requires q >= 1
    ensures c * q / q == c && c * q % q == 0
  {
    var n := c * q;
    EuclidUnique(n / q, n % q, c, 0, q);
  }

  /** A double at n is a multiple of the spacing there. */
  lemma DoubleIsMultiple(n: nat, m: int, k: nat, j: nat) returns (c: int)
    requires Scaled(n, m, k) && n < SIGNIFICAND * Pow2(j) && (j > 0 ==> 2 * n >= SIGNIFICAND * Pow2(j))
    ensures n == c * Pow2(j)
  {
    if k >= j {
      Pow2Sum(k - j, j);
      c := m * Pow2(k - j);
      Associate(m, Pow2(k - j), Pow2(j));
    } else {
      var d, p := Pow2(j - k - 1), Pow2(k);
      Pow2Sum(j - k - 1, k);
      Associate(SIGNIFICAND, d, p);
      assert n >= SIGNIFICAND * d * p;
      if m < SIGNIFICAND * d {
        TimesNext(m, SIGNIFICAND * d, p);
      }
      assert m == SIGNIFICAND && d == 1;
      c := SIGNIFICAND / 2;
    }
  }

  lemma Associate(a: int, b: int, c: int)
    ensures a * (b * c) == a * b * c
  {}

  lemma RoundAtFacts(n: nat, q: nat) returns (c: int)
    requires q >= 1 && n < SIGNIFICAND * q
    ensures RoundAt(n, q) == c * q && 0 <= c <= SIGNIFICAND
    ensures RoundAt(n, q) == n <==> n % q == 0
  {
    var d := n / q;
    c := if RoundAt(n, q) == d * q then d else d + 1;
    assert n == d * q + n % q;
    assert (d + 1) * q == d * q + q;
    if d >= SIGNIFICAND {
      if d > SIGNIFICAND { TimesNext(SIGNIFICAND, d, q); }
    }
  }

  lemma RoundNatFacts(n: nat) returns (c: int, j: nat)
    ensures Scaled(RoundAt(n, Quantum(n)), c, j)
    ensures RoundAt(n, Quantum(n)) == n <==> IsDouble(n)
  {
    j := QuantumFacts(n);
    c := RoundAtFacts(n, Pow2(j));
    if RoundAt(n, Quantum(n)) == n {
      assert Scaled(n, c, j);
    }
    if IsDouble(n) {
      var m, k :| Scaled(n, m, k);
      var e := DoubleIsMultiple(n, m, k, j);
      DivideExactly(e, Pow2(j));
    }
  }

  lemma IsDoubleNegated(n: int)
    requires IsDouble(n)
    ensures IsDouble(-n)
  {
    var m, k :| Scaled(n, m, k);
    assert Scaled(-n, -m, k);
  }

  /** Casting an integer to f64 gives a double, and keeps the integer exactly when it is one. */
  lemma RoundKeepsExactlyDoubles(n: int)
    ensures IsDouble(RoundToDouble(n))
    ensures RoundToDouble(n) == n <==> IsDouble(n)
  {
    var a := if n < 0 then -n else n;
    var c, j := RoundNatFacts(a);
    if n < 0 {
      IsDoubleNegated(RoundAt(a, Quantum(a)));
      if IsDouble(n) { IsDoubleNegated(n); }
      if IsDouble(a) { IsDoubleNegated(a); }
    }
  }

  // ----- rounding is to the nearest double, ties to an even significand -----

  function Apart(a: int, b: int): nat {
    if a < b then b - a else a - b
  }

  /** The integer is an even multiple of its spacing: its 53-bit significand is even. */
  ghost predicate EvenSignificand(n: int) {
    exists m, k :: Scaled(n, m, k) && SIGNIFICAND <= 2 * Apart(m, 0) && m % 2 == 0
  }

  /** Multiples of q on both sides of n. */
  lemma Neighbours(n: nat, q: nat, c: int)
    requires q >= 1
    ensures var down := n / q;
            && n == down * q + n % q && (down + 1) * q == down * q + q
            && (c < down ==> c * q + q <= down * q) && (c > down + 1 ==> down * q + q + q <= c * q)
  {
    var down := n / q;
    assert (down + 1) * q == down * q + q;
    if c < down {
      TimesNext(c, down, q);
    } else if c > down + 1 {
      TimesNext(down + 1, c, q);
    }
  }

  /** No multiple of q is nearer than the rounded one, and an equally near one leaves it an even multiple. */
  lemma NearestMultiple(n: nat, q: nat, c: int) returns (e: int)
    requires q >= 1
    ensures RoundAt(n, q) == e * q && n / q <= e <= n / q + 1
    ensures Apart(RoundAt(n, q), n) <= Apart(c * q, n)
    ensures c != e && Apart(RoundAt(n, q), n) == Apart(c * q, n) ==> e % 2 == 0
  {
    var down := n / q;
    Neighbours(n, q, c);
    e := if 2 * (n % q) < q || (2 * (n % q) == q && down % 2 == 0) then down else down + 1;
  }

  lemma SmallOrHalf(m: int, p: nat, d: nat, q: nat)
    requires m <= SIGNIFICAND && p >= 1 && d >= 1 && q == 2 * (d * p)
    ensures m * p == SIGNIFICAND / 2 * q || 2 * (m * p) < SIGNIFICAND * q
  {
    if m < SIGNIFICAND {
      TimesNext(m, SIGNIFICAND, p);
    }
    if d > 1 {
      TimesNext(1, d, p);
    }
  }

  /** A double is a multiple of 2^j, or less than every number of that spacing. */
  lemma MultipleOrSmall(m: int, k: nat, j: nat) returns (c: int)
    requires m <= SIGNIFICAND
    ensures m * Pow2(k) == c * Pow2(j) || 2 * (m * Pow2(k)) < SIGNIFICAND * Pow2(j)
  {
    if k >= j {
      Pow2Sum(k - j, j);
      Associate(m, Pow2(k - j), Pow2(j));
      c := m * Pow2(k - j);
    } else {
      Pow2Sum(j - k - 1, k);
      SmallOrHalf(m, Pow2(k), Pow2(j - k - 1), Pow2(j));
      c := SIGNIFICAND / 2;
    }
  }

  /** What rounding to multiples of a spacing q of n says of a number d. */
  ghost predicate NearestAt(n: nat, q: nat, d: int)
    requires q >= 1
  {
    && Apart(RoundAt(n, q), n) <= Apart(d, n)
    && (d != RoundAt(n, q) && Apart(RoundAt(n, q), n) == Apart(d, n) ==> EvenSignificand(RoundAt(n, q)))
  }

  lemma QuotientBounds(n: nat, q: nat)
    requires q >= 1 && 2 * n >= SIGNIFICAND * q && n < SIGNIFICAND * q
    ensures SIGNIFICAND <= 2 * (n / q) && n / q < SIGNIFICAND
  {
    var down := n / q;
    assert n == down * q + n % q;
    if 2 * down < SIGNIFICAND {
      TimesNext(down, SIGNIFICAND / 2, q);
    }
    if down > SIGNIFICAND {
      TimesNext(SIGNIFICAND, down, q);
    }
  }

  lemma NearestAmongMultiples(n: nat, j: nat, c: int)
    requires 2 * n >= SIGNIFICAND * Pow2(j) && n < SIGNIFICAND * Pow2(j)
    ensures NearestAt(n, Pow2(j), c * Pow2(j))
  {
    var q := Pow2(j);
    var e := NearestMultiple(n, q, c);
    QuotientBounds(n, q);
    if c != e && e % 2 == 0 {
      assert Scaled(e * q, e, j);
    }
  }

  /** Below the numbers of n's spacing nothing is as near as the least of them. */
  lemma NearestAboveSmall(n: nat, j: nat, d: int)
    requires 2 * n >= SIGNIFICAND * Pow2(j) && n < SIGNIFICAND * Pow2(j) && 2 * d < SIGNIFICAND * Pow2(j)
    ensures NearestAt(n, Pow2(j), d)
  {
    var half := SIGNIFICAND / 2;
    NearestAmongMultiples(n, j, half);
    assert 2 * (half * Pow2(j)) == SIGNIFICAND * Pow2(j);
  }

  lemma NatNearest(n: nat, d: int)
    requires IsDouble(d)
    ensures NearestAt(n, Quantum(n), d)
  {
    var j := QuantumFacts(n);
    var m, k :| Scaled(d, m, k);
    if j > 0 {
      var c := MultipleOrSmall(m, k, j);
      if d == c * Pow2(j) {
        NearestAmongMultiples(n, j, c);
      } else {
        NearestAboveSmall(n, j, d);
      }
    } else {
      assert Quantum(n) == 1 && RoundAt(n, 1) == n;
    }
  }

  lemma EvenNegated(n: int)
    requires EvenSignificand(n)
    ensures EvenSignificand(-n)
  {
    var m, k :| Scaled(n, m, k) && SIGNIFICAND <= 2 * Apart(m, 0) && m % 2 == 0;
    assert Scaled(-n, -m, k);
  }

  /** No double is nearer to an integer than the one it is cast to. */
  lemma RoundsToNearest(n: int, d: int)
    requires IsDouble(d)
    ensures Apart(RoundToDouble(n), n) <= Apart(d, n)
  {
    IsDoubleNegated(d);
    if n < 0 { NatNearest(-n, -d); } else { NatNearest(n, d); }
  }

  /** When another double is equally near, the one with the even significand is taken. */
  lemma TiesToEven(n: int, d: int)
    requires IsDouble(d) && d != RoundToDouble(n) && Apart(RoundToDouble(n), n) == Apart(d, n)
    ensures EvenSignificand(RoundToDouble(n)) && IsDouble(RoundToDouble(n))
  {
    RoundKeepsExactlyDoubles(n);
    IsDoubleNegated(d);
    if n < 0 {
      NatNearest(-n, -d);
      EvenNegated(-RoundToDouble(n));
    } else {
      NatNearest(n, d);
    }
  }

  /** Ties above 2^53: the integers halfway between two doubles go down and up in turn. */
  lemma TiesOccur()
    ensures RoundToDouble(SIGNIFICAND + 1) == SIGNIFICAND && RoundToDouble(SIGNIFICAND + 3) == SIGNIFICAND + 4
    ensures IsDouble(SIGNIFICAND + 2)
  {
    assert Quantum(SIGNIFICAND + 1) == 2 && Quantum(SIGNIFICAND + 3) == 2;
    assert Scaled(SIGNIFICAND + 2, SIGNIFICAND / 2 + 1, 1);
  }

  /** The largest 64-bit integer casts to 2^64. */
  lemma RoundU64Max()
    ensures RoundToDouble(U64_MAX) == TWO_64
  {
    var j := QuantumFacts(U64_MAX);
    assert Pow2(11) == 2048;
    assert Pow2(10) == 1024;
    assert Pow2(12) == 4096;
    if j < 11 {
      Pow2Sum(10 - j, j);
    } else if j > 11 {
      Pow2Sum(j - 12, 12);
    }
  }
}
