/** Percentages as Python computes them: an integer division to the nearest double, rounded to an integer. */
module Percent {
  const TWO_TO_52: int := 0x10_0000_0000_0000

  function Pow2(k: nat): (r: int)
    ensures r > 0
  {
    if k == 0 then 1 else 2 * Pow2(k - 1)
  }

  // ---- doubles ----

  // The finite values of IEEE 754 binary64: integers of 53 bits times a power of two.
  predicate DoubleAs(y: real, m: int, k: nat) {
    && -2 * TWO_TO_52 <= m <= 2 * TWO_TO_52
    && ((k <= 1074 && y * Pow2(k) as real == m as real) || (k <= 971 && y == m as real * Pow2(k) as real))
  }

  ghost predicate IsDouble(y: real) {
    exists m, k :: DoubleAs(y, m, k)
  }

  function Abs(x: real): real {
    if x < 0.0 then -x else x
  }

  // A double nearest to x: what a correctly rounded operation returns, whichever of two it takes.
  ghost predicate Nearest(y: real, x: real) {
    IsDouble(y) && forall z :: IsDouble(z) ==> Abs(y - x) <= Abs(z - x)
  }

  // ---- rounding ----

  // `round(y)`: to the nearest integer, the even one of two.
  function Round(y: real): int {
    var q := y.Floor;
    if y - q as real < 0.5 || (y - q as real == 0.5 && q % 2 == 0) then q else q + 1
  }

  // The same of the exact quotient.
  function RoundHalfEven(n: int, d: nat): int
    requires d > 0
  {
    var q, r := n / d, n % d;
    if 2 * r < d || (2 * r == d && q % 2 == 0) then q else q + 1
  }

  /** The rounded quotient is the nearest integer, the even one where two are as near. */
  lemma RoundsToNearest(n: int, d: nat)
    requires d > 0
    ensures var p := RoundHalfEven(n, d);
      && 0 - d <= 2 * (p * d - n) <= d
      && (2 * (p * d - n) == d || 2 * (p * d - n) == 0 - d ==> p % 2 == 0)
  {
    var q, r := n / d, n % d;
    assert n == q * d + r;
    assert (q + 1) * d == q * d + d;
  }

  lemma RoundIs(y: real, p: int)
    requires p as real - 0.5 < y < p as real + 0.5 || (Abs(y - p as real) == 0.5 && p % 2 == 0)
    ensures Round(y) == p
  {
  }

  // ---- halves ----

  // Half an odd number.
  function Half(a: int): real {
    a as real / 2.0
  }

  lemma HalfIsDouble(a: int)
    requires -2 * TWO_TO_52 <= a <= 2 * TWO_TO_52
    ensures IsDouble(Half(a))
  {
    assert Pow2(1) == 2 by {
      assert Pow2(0) == 1;
    }
    assert DoubleAs(Half(a), a, 1);
  }

  // The double nearest to x is on x's side of every half.
  lemma SameSide(y: real, x: real, h: real)
    requires Nearest(y, x) && IsDouble(h)
    ensures x <= h ==> y <= h
    ensures x >= h ==> y >= h
  {
    assert Abs(y - x) <= Abs(h - x);
    hide IsDouble;
  }

  // Shifts a to 53 bits.
  function Shift(a: int): (s: nat)
    requires 0 < a < 2 * TWO_TO_52
    ensures s <= 52 && TWO_TO_52 <= a * Pow2(s) < 2 * TWO_TO_52
  {
    ShiftFrom(a, 0)
  }

  lemma Pow2At52()
    ensures Pow2(52) == TWO_TO_52
  {
    assert Pow2(10) == 1024;
    assert Pow2(20) == 1024 * 1024;
    assert Pow2(30) == 1024 * 1024 * 1024;
    assert Pow2(40) == 1024 * 1024 * 1024 * 1024;
    assert Pow2(50) == 1024 * 1024 * 1024 * 1024 * 1024;
  }

  function ShiftFrom(a: int, s: nat): (r: nat)
    requires 0 < a && s <= 52 && a * Pow2(s) < 2 * TWO_TO_52
    ensures r <= 52 && TWO_TO_52 <= a * Pow2(r) < 2 * TWO_TO_52
    decreases 52 - s
  {
    if a * Pow2(s) >= TWO_TO_52 then s
    else
      ShiftStep(a, s);
      ShiftFrom(a, s + 1)
  }

  lemma ShiftStep(a: int, s: nat)
    requires 0 < a && s <= 52 && a * Pow2(s) < TWO_TO_52
    ensures s < 52 && a * Pow2(s + 1) == 2 * (a * Pow2(s))
  {
    Pow2At52();
    Pow2Next(s);
    hide Pow2;
    assert 2 * (a * Pow2(s)) == a * (2 * Pow2(s));
  }

  lemma ScaledBack(b: int, p: int, u: real)
    requires p > 0 && u == 1.0 / (2 * p) as real
    ensures (b as real * u) * (2 * p) as real == b as real
  {
    assert u * (2 * p) as real == 1.0;
    Regroup(b as real, u, (2 * p) as real);
  }

  lemma Regroup(a: real, b: real, c: real)
    ensures (a * b) * c == a * (b * c)
  {
  }

  lemma Distribute(a: real, b: real, c: real)
    ensures (a + b) * c == a * c + b * c
  {
  }

  lemma LessTimes(a: real, b: real, c: real)
    requires a <= b && c >= 0.0
    ensures a * c <= b * c
  {
  }

  function Size(a: int): nat {
    if a < 0 then -a else a
  }

  lemma SizeTimes(a: int, p: int)
    requires p > 0
    ensures Size(a * p) == Size(a) * p
  {
    if a < 0 {
      assert a * p == -(-a * p);
    }
  }

  lemma HalfSize(a: int)
    ensures Abs(Half(a)) == Half(Size(a))
  {
  }

  // A double beside a half, on either side of it, at no more than its part in 2^52.
  lemma Beside(a: int, up: bool) returns (z: real, u: real)
    requires 0 < Size(a) < 2 * TWO_TO_52
    ensures IsDouble(z) && z == Half(a) + (if up then u else -u)
    ensures u > 0.0 && u * TWO_TO_52 as real <= Abs(Half(a))
  {
    hide *;
    var s := Shift(Size(a));
    var p := Pow2(s);
    SizeTimes(a, p);
    u := 1.0 / (2 * p) as real;
    Bounded(a * p);
    Pow2Next(s);
    z := BesideIs(a * p, up, s, p, u);
    HalfScaled(a, p, u);
    HalfSize(a);
    BesideNear(Size(a), p, u);
  }

  lemma Bounded(b: int)
    requires Size(b) < 2 * TWO_TO_52
    ensures -2 * TWO_TO_52 <= b - 1 && b + 1 <= 2 * TWO_TO_52
  {
  }

  lemma Pow2Next(s: nat)
    ensures Pow2(s + 1) == 2 * Pow2(s)
  {
  }

  lemma BesideNear(size: nat, p: int, u: real)
    requires p > 0 && u == 1.0 / (2 * p) as real && TWO_TO_52 <= size * p
    ensures u > 0.0 && u * TWO_TO_52 as real <= Half(size)
  {
    HalfScaled(size, p, u);
    LessTimes(TWO_TO_52 as real, (size * p) as real, u);
  }

  lemma BesideIs(b: int, up: bool, s: nat, p: int, u: real) returns (z: real)
    requires s <= 52 && p > 0 && Pow2(s + 1) == 2 * p && u == 1.0 / (2 * p) as real
    requires -2 * TWO_TO_52 <= b + (if up then 1 else -1) <= 2 * TWO_TO_52
    ensures IsDouble(z) && z == b as real * u + (if up then u else -u)
  {
    hide *;
    var m := b + if up then 1 else -1;
    z := m as real * u;
    ScaledBack(m, p, u);
    BesideDouble(z, m, s, p);
    Distribute(b as real, if up then 1.0 else -1.0, u);
  }

  lemma BesideDouble(z: real, m: int, s: nat, p: int)
    requires s <= 52 && Pow2(s + 1) == 2 * p && z * (2 * p) as real == m as real
    requires -2 * TWO_TO_52 <= m <= 2 * TWO_TO_52
    ensures IsDouble(z)
  {
    hide Pow2;
    assert DoubleAs(z, m, s + 1);
  }

  lemma HalfScaled(a: int, p: int, u: real)
    requires p > 0 && u == 1.0 / (2 * p) as real
    ensures (a * p) as real * u == Half(a)
  {
    assert (a * p) as real == a as real * p as real;
    Regroup(a as real, p as real, u);
    assert p as real * u == 0.5;
  }

  // ---- percentages ----

  function Quotient(n: int, d: nat): real
    requires d > 0
  {
    n as real / d as real
  }

  // How far a quotient is from a half.
  lemma Gap(n: int, d: nat, a: int)
    requires d > 0
    ensures (Half(a) - Quotient(n, d)) * (2 * d) as real == (a * d - 2 * n) as real
  {
    var x, D := Quotient(n, d), d as real;
    assert x * D == n as real;
    assert Half(a) * (2 * d) as real == a as real * D;
    assert x * (2 * d) as real == 2.0 * n as real;
    Distribute(Half(a), -x, (2 * d) as real);
  }

  lemma Cancel(a: real, b: real, c: real)
    requires a * c < b * c && c > 0.0
    ensures a < b
  {
  }

  lemma GapSize(n: int, d: nat, a: int)
    requires d > 0
    ensures Abs(Half(a) - Quotient(n, d)) * (2 * d) as real == Size(a * d - 2 * n) as real
  {
    Gap(n, d, a);
    hide Half, Quotient;
    AbsTimes(Half(a) - Quotient(n, d), (2 * d) as real);
  }

  lemma HalfTimes(size: nat, d: nat)
    ensures Half(size) * (2 * d) as real == (size * d) as real
  {
    assert (size * d) as real == size as real * d as real;
  }

  lemma SizeSum(b: int, m: int, n: int)
    requires -TWO_TO_52 < n < TWO_TO_52 && m == 2 * n
    ensures Size(b) < 2 * TWO_TO_52 - 1 + Size(b - m)
  {
  }

  lemma SizePositive(b: int)
    ensures b != 0 <==> Size(b) > 0
  {
  }

  // The double beside the half is too near to it to be further from the quotient than the half is.
  lemma GapIsWide(n: int, d: nat, a: int, u: real)
    requires d > 0 && -TWO_TO_52 < n < TWO_TO_52 && a * d != 2 * n && u > 0.0
    requires u * TWO_TO_52 as real <= Abs(Half(a))
    ensures u < 2.0 * Abs(Half(a) - Quotient(n, d))
  {
    hide *;
    GapSize(n, d, a);
    SizeTimes(a, d);
    SizeSum(a * d, 2 * n, n);
    SizePositive(a * d - 2 * n);
    HalfSize(a);
    LessTimes(u * TWO_TO_52 as real, Half(Size(a)), (2 * d) as real);
    HalfTimes(Size(a), d);
    Doubled(u, d);
    TooFar(u, Abs(Half(a) - Quotient(n, d)), d, Size(a * d - 2 * n), Size(a) * d);
  }

  lemma Doubled(u: real, d: nat)
    ensures (u * TWO_TO_52 as real) * (2 * d) as real == (u * d as real) * (2.0 * TWO_TO_52 as real)
  {
    Rearrange(u, TWO_TO_52 as real, d as real);
  }

  lemma AbsTimes(x: real, k: real)
    requires k > 0.0
    ensures Abs(x) * k == Abs(x * k)
  {
  }

  lemma Rearrange(u: real, t: real, d: real)
    ensures (u * t) * (2.0 * d) == (u * d) * (2.0 * t)
  {
  }

  lemma TooFar(u: real, g: real, d: nat, c: nat, b: int)
    requires d > 0 && c > 0 && g * (2 * d) as real == c as real
    requires (u * d as real) * (2.0 * TWO_TO_52 as real) <= b as real
    requires b < 2 * TWO_TO_52 - 1 + c
    ensures u < 2.0 * g
  {
    assert b < 2 * TWO_TO_52 * c;
    assert u * d as real < c as real;
    assert (2.0 * g) * d as real == c as real;
    Cancel(u, 2.0 * g, d as real);
  }

  /** Dividing to the nearest double does not move a quotient onto a half, as long as the dividend is below 2^52. */
  lemma OffHalf(n: int, d: nat, a: int, y: real)
    requires d > 0 && -TWO_TO_52 < n < TWO_TO_52 && 0 < Size(a) < 2 * TWO_TO_52 && a * d != 2 * n
    requires Nearest(y, Quotient(n, d))
    ensures y != Half(a)
  {
    var x, h := Quotient(n, d), Half(a);
    var z, u := Beside(a, h < x);
    GapIsWide(n, d, a, u);
    hide IsDouble, Half, Quotient;
    assert Abs(z - x) < Abs(h - x);
    assert Abs(y - x) <= Abs(z - x);
  }

  lemma QuotientBetween(n: int, d: nat, a: int)
    requires d > 0
    ensures Quotient(n, d) < Half(a) <==> 2 * n < a * d
    ensures Quotient(n, d) == Half(a) <==> 2 * n == a * d
  {
    Gap(n, d, a);
  }

  /** The percentage as Python computes it, `round` of the nearest double, is the exact quotient rounded, wherever the
      dividend is below 2^52 and whichever of two doubles the division takes. */
  lemma RoundedQuotientIsExact(n: int, d: nat, y: real)
    requires d > 0 && -TWO_TO_52 < n < TWO_TO_52 && Nearest(y, Quotient(n, d))
    ensures Round(y) == RoundHalfEven(n, d)
  {
    hide *;
    var p := RoundHalfEven(n, d);
    RoundsToNearest(n, d);
    Halves(n, d, p);
    Below(n, d, 2 * p + 1, y);
    Below(n, d, 2 * p - 1, y);
    RoundBetween(n, d, p, y);
  }

  lemma Scaled(p: int, d: nat)
    ensures p >= TWO_TO_52 ==> p * d >= TWO_TO_52 * d
    ensures p <= -TWO_TO_52 ==> p * d <= -TWO_TO_52 * d
  {
    if p >= TWO_TO_52 {
      assert (p - TWO_TO_52) * d >= 0;
    }
    if p <= -TWO_TO_52 {
      assert (-TWO_TO_52 - p) * d >= 0;
    }
  }

  // Division of integers as IEEE 754 and Python have it, whichever of two nearest doubles it returns.
  ghost predicate CorrectlyRounded(quotient: (int, nat) -> real) {
    forall n: int, d: nat :: d > 0 ==> Nearest(quotient(n, d), Quotient(n, d))
  }

  // The halves around the rounded quotient are doubles.
  lemma Halves(n: int, d: nat, p: int)
    requires d > 0 && -TWO_TO_52 < n < TWO_TO_52 && 0 - d <= 2 * (p * d - n) <= d
    ensures 0 < Size(2 * p + 1) < 2 * TWO_TO_52 && 0 < Size(2 * p - 1) < 2 * TWO_TO_52
  {
    Scaled(p, d);
  }

  // The double keeps the quotient's place against a half.
  lemma Below(n: int, d: nat, a: int, y: real)
    requires d > 0 && -TWO_TO_52 < n < TWO_TO_52 && 0 < Size(a) < 2 * TWO_TO_52 && Nearest(y, Quotient(n, d))
    ensures 2 * n < a * d ==> y < Half(a)
    ensures 2 * n == a * d ==> y == Half(a)
    ensures 2 * n > a * d ==> y > Half(a)
  {
    hide Nearest, Half, Quotient, IsDouble;
    HalfIsDouble(a);
    QuotientBetween(n, d, a);
    SameSide(y, Quotient(n, d), Half(a));
    if 2 * n != a * d {
      OffHalf(n, d, a, y);
    }
  }

  lemma RoundBetween(n: int, d: nat, p: int, y: real)
    requires d > 0 && 0 - d <= 2 * (p * d - n) <= d
    requires 2 * (p * d - n) == d || 2 * (p * d - n) == 0 - d ==> p % 2 == 0
    requires 2 * n < (2 * p + 1) * d ==> y < Half(2 * p + 1)
    requires 2 * n == (2 * p + 1) * d ==> y == Half(2 * p + 1)
    requires 2 * n > (2 * p - 1) * d ==> y > Half(2 * p - 1)
    requires 2 * n == (2 * p - 1) * d ==> y == Half(2 * p - 1)
    ensures Round(y) == p
  {
    assert (2 * p + 1) * d == 2 * (p * d) + d && (2 * p - 1) * d == 2 * (p * d) - d;
    hide Round;
    RoundIs(y, p);
  }

  // ---- beyond ----

  lemma {:induction false} Pow2Split(k: nat, n: nat)
    ensures Pow2(k) * Pow2(n) == Pow2(k + n)
  {
    if k > 0 {
      Pow2Split(k - 1, n);
      assert Pow2(k) * Pow2(n) == 2 * (Pow2(k - 1) * Pow2(n)) by {
        Assoc(2, Pow2(k - 1), Pow2(n));
      }
    }
  }

  lemma Assoc(a: int, b: int, c: int)
    ensures (a * b) * c == a * (b * c)
  {
  }

  // Doubles below 2 are multiples of 2^-52, or at most 1.
  lemma SmallDouble(z: real, m: int, k: nat) returns (b: int)
    requires z * Pow2(k) as real == m as real && m <= 2 * TWO_TO_52
    ensures z <= 1.0 || z * TWO_TO_52 as real == b as real
  {
    b := 0;
    Pow2At52();
    hide Pow2;
    if k <= 52 {
      Pow2Split(k, 52 - k);
      b := m * Pow2(52 - k);
      Multiple(z, m, Pow2(k), Pow2(52 - k));
    } else if z > 1.0 {
      Pow2Large(k);
      Grows(z, Pow2(k));
    }
  }

  lemma Multiple(z: real, m: int, p: int, q: int)
    requires z * p as real == m as real && p * q == TWO_TO_52
    ensures z * TWO_TO_52 as real == (m * q) as real
  {
    Regroup(z, p as real, q as real);
    assert (p * q) as real == p as real * q as real;
    assert (m * q) as real == m as real * q as real;
  }

  lemma Pow2Large(k: nat)
    requires k > 52
    ensures Pow2(k) >= 2 * TWO_TO_52
  {
    Pow2At52();
    Pow2Next(52);
    hide Pow2;
    Pow2Split(53, k - 53);
    Scaled(Pow2(53), Pow2(k - 53));
    assert 2 * TWO_TO_52 * (Pow2(k - 53) - 1) >= 0;
  }

  lemma Grows(z: real, p: int)
    requires z > 1.0 && p > 0
    ensures z * p as real > p as real
  {
  }

  lemma WholeIsFar(z: real, m: int, k: nat)
    requires z == m as real * Pow2(k) as real
    ensures Abs(z - 1.5) >= 0.5
  {
    assert z == (m * Pow2(k)) as real;
    hide Pow2;
  }

  // The doubles next to 3/2 are 2^-52 away.
  lemma NearThreeHalves(z: real)
    requires IsDouble(z) && Abs(z - 1.5) * TWO_TO_52 as real < 1.0
    ensures z == 1.5
  {
    var m, k :| DoubleAs(z, m, k);
    if k <= 1074 && z * Pow2(k) as real == m as real {
      var b := SmallDouble(z, m, k);
      hide Pow2;
      assert b == 3 * (TWO_TO_52 / 2);
    } else {
      WholeIsFar(z, m, k);
      assert false;
    }
  }

  /** The bound is needed: there are amounts above it whose quotient, just below 3/2, becomes 3/2 and is rounded up. */
  lemma LargeQuotientMoves()
    ensures var n, d := 3 * TWO_TO_52 + 1, 2 * TWO_TO_52 + 1;
      Nearest(1.5, Quotient(n, d)) && Round(1.5) == 2 && RoundHalfEven(n, d) == 1
  {
    var n, d := 3 * TWO_TO_52 + 1, 2 * TWO_TO_52 + 1;
    HalfIsDouble(3);
    assert Half(3) == 1.5;
    var x := Quotient(n, d);
    assert 0.0 <= (1.5 - x) * TWO_TO_52 as real <= 0.25;
    forall z | IsDouble(z) ensures Abs(1.5 - x) <= Abs(z - x) {
      if z != 1.5 && Abs(z - 1.5) * TWO_TO_52 as real < 1.0 {
        NearThreeHalves(z);
      }
      hide IsDouble, Quotient;
    }
    hide IsDouble;
    assert n / d == 1 && n % d == TWO_TO_52;
  }
}
