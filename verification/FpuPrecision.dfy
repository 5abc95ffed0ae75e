/** What a floating-point register receives: the source rounded to the precision that the control
    register selects, single precision with its narrower exponent range too. Doubles are counted in
    steps of 2^-1074, of which every double is a multiple, so that all of it is integer rounding. */
module FpuPrecision {
  import opened FpuArithmetic

  // ---------- what rounding keeps ----------

  lemma PowerDivides(i: nat, j: nat)
    requires i <= j
    ensures Pow2(j) == Pow2(j - i) * Pow2(i) && Pow2(j) % Pow2(i) == 0
  {
    hide Pow2;
    Pow2Sum(j - i, i);
    BigMultipleRest(Pow2(j - i), Pow2(i));
  }

  /** A multiple of the greater power of two is one of the smaller. */
  lemma CoarserMultiple(z: int, i: nat, j: nat) returns (k: int)
    requires i <= j && z % Pow2(j) == 0
    ensures z == k * Pow2(i) && z % Pow2(i) == 0
  {
    hide Pow2;
    PowerDivides(i, j);
    var d := z / Pow2(j);
    k := d * Pow2(j - i);
    assert z == d * Pow2(j) == d * (Pow2(j - i) * Pow2(i)) == k * Pow2(i);
    BigMultipleRest(k, Pow2(i));
  }

  /** Rounding to an integer, in any mode, does not cross an integer. */
  lemma IntegerNotCrossed(mode: Mode, k: int, y: real)
    ensures k as real <= y ==> k <= ToIntegral(mode, y)
    ensures y <= k as real ==> ToIntegral(mode, y) <= k
  {
    FloorIsGreatest(y, k);
    CeilingIsLeast(y, k);
    IntegralOfInteger(mode, k);
    CeilingIsLeast(y, Floor(y) + 1);
  }

  lemma ScaledQuotient(k: int, z: int, q: nat)
    requires 0 < q
    ensures k * q <= z ==> k as real <= z as real / q as real
    ensures z <= k * q ==> z as real / q as real <= k as real
  {
    QuotientTimes(z as real, q as real);
    ProductAsReal(k, q);
    var y, w, kw := z as real / q as real, q as real, (k * q) as real;
    if y < k as real {
      ProductPositive(k as real - y, w, kw - z as real);
    }
    if k as real < y {
      ProductPositive(y - k as real, w, z as real - kw);
    }
  }

  lemma ProductOrdered(a: int, b: int, q: nat)
    requires a <= b
    ensures a * q <= b * q
  {
  }

  /** Rounding to multiples of q does not cross one. */
  lemma MultipleNotCrossed(mode: Mode, k: int, z: int, q: nat)
    requires 0 < q
    ensures var r := ToIntegral(mode, z as real / q as real) * q;
      (k * q <= z ==> k * q <= r) && (z <= k * q ==> r <= k * q)
  {
    hide ToIntegral;
    var n := ToIntegral(mode, z as real / q as real);
    ScaledQuotient(k, z, q);
    IntegerNotCrossed(mode, k, z as real / q as real);
    if k <= n {
      ProductOrdered(k, n, q);
    }
    if n <= k {
      ProductOrdered(n, k, q);
    }
  }

  /** Rounding a number does not take it past a smaller one that fits. */
  lemma FittingNotCrossed(bits: nat, least: nat, mode: Mode, z: int, t: int)
    requires 1 <= bits && Fits(bits, least, t) && t <= z
    ensures t <= RoundTo(bits, least, mode, z)
  {
    hide Pow2, Exponent, ToIntegral;
    var e, f := Exponent(bits, least, Magnitude(z)), Exponent(bits, least, Magnitude(t));
    var q := Pow2(e);
    if e <= f {
      var k := CoarserMultiple(t, e, f);
      MultipleNotCrossed(mode, k, z, q);
    } else {
      Pow2Ordered(bits + f, bits + e - 1);
      Pow2Sum(bits - 1, e);
      MultipleNotCrossed(mode, Pow2(bits - 1), z, q);
    }
  }

  /** A multiple of a last bit's weight that is no longer than the significand fits. */
  lemma MultipleFits(bits: nat, least: nat, r: int, e: nat)
    requires 1 <= bits && least <= e && r % Pow2(e) == 0 && Magnitude(r) <= Pow2(bits + e)
    ensures Fits(bits, least, r)
  {
    hide Pow2, Exponent;
    var f := Exponent(bits, least, Magnitude(r));
    if Magnitude(r) == Pow2(bits + e) {
      Pow2Grows(bits + e, bits + e + 1);
      ExponentIs(bits, least, Magnitude(r), e + 1);
      PowerDivides(e + 1, bits + e);
      NegatedMultiple(Pow2(bits + e), Pow2(e + 1));
    } else {
      if e < f {
        Pow2Ordered(bits + e, bits + f - 1);
      }
      var k := CoarserMultiple(r, f, e);
    }
  }

  lemma RoundedBound(mode: Mode, z: int, q: nat, p: nat)
    requires 0 < q && Magnitude(z) < p * q
    ensures Magnitude(ToIntegral(mode, z as real / q as real) * q) <= p * q
  {
    hide ToIntegral;
    var i: int := p;
    MultipleNotCrossed(mode, i, z, q);
    MultipleNotCrossed(mode, -i, z, q);
    assert -i * q == -(i * q);
  }

  /** What rounding gives fits. */
  lemma RoundedFits(bits: nat, least: nat, mode: Mode, z: int)
    requires 1 <= bits
    ensures Fits(bits, least, RoundTo(bits, least, mode, z))
  {
    hide Pow2, Exponent, ToIntegral, Fits, Magnitude;
    var e := Exponent(bits, least, Magnitude(z));
    Pow2Sum(bits, e);
    RoundedBound(mode, z, Pow2(e), Pow2(bits));
    BigMultipleRest(ToIntegral(mode, z as real / Pow2(e) as real), Pow2(e));
    MultipleFits(bits, least, RoundTo(bits, least, mode, z), e);
  }

  lemma NegatedMultiple(z: int, q: nat)
    requires 0 < q && z % q == 0
    ensures -z % q == 0
  {
    assert -z == -(z / q) * q;
    BigMultipleRest(-(z / q), q);
  }

  // ---------- scaling ----------

  lemma TimesPower(a: nat, b: nat, q: nat)
    requires a < b && 0 < q
    ensures a * q < b * q
  {
  }

  lemma MagnitudeTimes(n: int, q: nat)
    requires 0 < q
    ensures Magnitude(n * q) == Magnitude(n) * q
  {
    if n < 0 {
      assert n * q < 0;
      assert -(n * q) == -n * q;
    } else {
      assert n * q >= 0;
    }
  }

  lemma SameQuotient(n: int, q: nat, w: nat)
    requires 0 < q && 0 < w
    ensures 0 < q * w && (n * w) as real / (q * w) as real == n as real / q as real
  {
    assert 0 < q * w;
    ProductAsReal(n, w);
    ProductAsReal(q, w);
    var y: real, u: real, v: real := n as real, q as real, w as real;
    assert (y * v) / (u * v) == y / u;
  }

  lemma ScaledBetween(n: int, lo: nat, hi: nat, w: nat)
    requires lo <= Magnitude(n) < hi && 0 < w
    ensures lo * w <= Magnitude(n * w) < hi * w
  {
    MagnitudeTimes(n, w);
    TimesPower(Magnitude(n), hi, w);
    ProductOrdered(lo, Magnitude(n), w);
  }

  lemma WeightIs(bits: nat, least: nat, z: int, e: nat)
    requires least <= e && 0 < bits + e && Pow2(bits + e - 1) <= Magnitude(z) < Pow2(bits + e)
    ensures Weight(bits, least, z) == Pow2(e)
  {
    hide Pow2, Exponent;
    ExponentIs(bits, least, Magnitude(z), e);
  }

  lemma WeightScales(bits: nat, least: nat, n: int, g: nat)
    requires 1 <= bits && least <= g && 0 < Exponent(bits, 0, Magnitude(n))
    ensures Weight(bits, least, n * Pow2(g)) == Weight(bits, 0, n) * Pow2(g)
  {
    hide Pow2, Exponent, Magnitude, Weight;
    var e := Exponent(bits, 0, Magnitude(n));
    WeightIs(bits, 0, n, e);
    ScaledPowers(n, bits + e, g);
    assert bits + e + g == bits + (e + g);
    WeightIs(bits, least, n * Pow2(g), e + g);
    Pow2Sum(e, g);
  }

  lemma ScaledPowers(n: int, i: nat, g: nat)
    requires 0 < i && Pow2(i - 1) <= Magnitude(n) < Pow2(i)
    ensures Pow2(i + g - 1) <= Magnitude(n * Pow2(g)) < Pow2(i + g)
  {
    hide Pow2, Magnitude;
    ScaledBetween(n, Pow2(i - 1), Pow2(i), Pow2(g));
    Pow2Sum(i - 1, g);
    Pow2Sum(i, g);
  }

  /** Rounding does not depend on the unit in which a number is counted, as long as the last bit may
      weigh as little as the coarser unit. */
  lemma RoundingScales(bits: nat, least: nat, mode: Mode, n: int, g: nat)
    requires 1 <= bits && least <= g
    ensures RoundTo(bits, least, mode, n * Pow2(g)) == RoundToBits(bits, mode, n) * Pow2(g)
  {
    hide Pow2, Exponent, ToIntegral, Weight, Magnitude, Fits;
    var w := Pow2(g);
    if Exponent(bits, 0, Magnitude(n)) == 0 {
      RoundingExact(bits, 0, mode, n);
      FitsWhole(bits, n);
      ScaledWholeFits(bits, least, n, g);
      RoundingExact(bits, least, mode, n * w);
    } else {
      WeightScales(bits, least, n, g);
      var q := Weight(bits, 0, n);
      SameQuotient(n, q, w);
      Regrouped(ToIntegral(mode, n as real / q as real), q, w);
    }
  }

  lemma Regrouped(n: int, q: nat, w: nat)
    ensures n * (q * w) == n * q * w
  {
  }

  lemma ScaledWholeFits(bits: nat, least: nat, n: int, g: nat)
    requires 1 <= bits && least <= g && Magnitude(n) < Pow2(bits)
    ensures Fits(bits, least, n * Pow2(g))
  {
    hide Pow2, Fits, Magnitude;
    MagnitudeTimes(n, Pow2(g));
    TimesPower(Magnitude(n), Pow2(bits), Pow2(g));
    Pow2Sum(bits, g);
    BigMultipleRest(n, Pow2(g));
    MultipleFits(bits, least, n * Pow2(g), g);
  }

  // ---------- registers ----------

  /** A precision. Numbers are counted in units of 2^-unit; the significand has the given bits, the
      last one weighs 2^least units or more, and numbers end below 2^top units. An infinite number is
      kept as 2^infinity units. */
  datatype Format = Format(bits: nat, least: nat, top: nat, unit: nat, infinity: nat)

  predicate WellFormed(f: Format) {
    1 <= f.bits && f.least <= f.unit && f.least + f.bits < f.top <= f.infinity
  }

  /** The greatest number: all significand bits are ones. */
  function Largest(f: Format): nat
    requires WellFormed(f)
  {
    Pow2Ordered(f.top - f.bits, f.top);
    Pow2(f.top) - Pow2(f.top - f.bits)
  }

  /** What becomes of a number too large, by mode: infinity or the greatest number. */
  function Overflowed(f: Format, mode: Mode, negative: bool): int
    requires WellFormed(f)
  {
    var infinite := match mode
      case Nearest => true
      case Zero => false
      case Down => negative
      case Up => !negative;
    var a := if infinite then Pow2(f.infinity) else Largest(f);
    if negative then -a else a
  }

  /** What a register receives, in units. */
  function RegisterUnits(f: Format, mode: Mode, z: int): int
    requires WellFormed(f)
  {
    var r := RoundTo(f.bits, f.least, mode, z);
    if Pow2(f.top) <= Magnitude(r) then Overflowed(f, mode, r < 0) else r
  }

  function Units(f: Format, x: real): int {
    Floor(x * Pow2(f.unit) as real)
  }

  function OfUnits(f: Format, z: int): real {
    z as real / Pow2(f.unit) as real
  }

  /** What a register receives of x. */
  function InRegister(f: Format, mode: Mode, x: real): real
    requires WellFormed(f)
  {
    OfUnits(f, RegisterUnits(f, mode, Units(f, x)))
  }

  /** A number the precision holds. */
  predicate Holds(f: Format, z: int) {
    Fits(f.bits, f.least, z) && Magnitude(z) < Pow2(f.top)
  }

  lemma LargestHeld(f: Format)
    requires WellFormed(f)
    ensures Largest(f) < Pow2(f.top) <= Pow2(f.infinity)
    ensures Holds(f, Largest(f)) && Holds(f, -(Largest(f) as int))
  {
    hide Pow2, Fits;
    var e := f.top - f.bits;
    var q, p: int, z: int := Pow2(e), Pow2(f.bits), Largest(f);
    Pow2Ordered(f.top, f.infinity);
    Pow2Sum(f.bits, e);
    assert z == (p - 1) * q;
    BigMultipleRest(p - 1, q);
    NegatedMultiple(z, q);
    MultipleFits(f.bits, f.least, z, e);
    MultipleFits(f.bits, f.least, -z, e);
  }

  /** The precision holds no greater number. */
  lemma LargestIsLargest(f: Format, t: int)
    requires WellFormed(f) && Holds(f, t)
    ensures Magnitude(t) <= Largest(f)
  {
    hide Pow2, Exponent;
    var a, e := Magnitude(t), f.top - f.bits;
    if Largest(f) < a {
      var q := Pow2(e);
      Pow2Sum(f.bits, e);
      Pow2Sum(f.bits - 1, e);
      TwiceBelow(f.bits, e);
      ExponentIs(f.bits, f.least, a, e);
      if t < 0 {
        NegatedMultiple(t, q);
      }
      NoMultipleBetween(a, Pow2(f.bits), q);
    }
  }

  lemma TwiceBelow(bits: nat, e: nat)
    requires 1 <= bits
    ensures Pow2(bits + e) == 2 * Pow2(bits + e - 1) && Pow2(e) <= Pow2(bits + e - 1)
  {
    Pow2Ordered(e, bits + e - 1);
  }

  lemma NoMultipleBetween(a: nat, p: nat, q: nat)
    requires 0 < q && a % q == 0 && p * q - q < a
    ensures p * q <= a
  {
    var d := a / q;
    assert a == d * q;
    assert p * q - q == (p - 1) * q;
    if d <= p - 1 {
      ProductOrdered(d, p - 1, q);
    } else {
      ProductOrdered(p, d, q);
    }
  }

  /** A register keeps exactly the numbers the precision holds. */
  lemma HeldStays(f: Format, mode: Mode, z: int)
    requires WellFormed(f) && Magnitude(z) < Pow2(f.infinity)
    ensures RegisterUnits(f, mode, z) == z <==> Holds(f, z)
  {
    hide RoundTo, Fits, Pow2, Largest;
    RoundingExact(f.bits, f.least, mode, z);
    LargestHeld(f);
  }

  /** What it receives is such a number, or infinite. */
  lemma RegisterHolds(f: Format, mode: Mode, z: int)
    requires WellFormed(f) && Magnitude(RegisterUnits(f, mode, z)) < Pow2(f.infinity)
    ensures Holds(f, RegisterUnits(f, mode, z))
  {
    hide RoundTo, Fits, Pow2, Largest;
    RoundedFits(f.bits, f.least, mode, z);
    LargestHeld(f);
  }

  /** Nothing that the precision holds is crossed on the way. */
  lemma HeldNotCrossed(f: Format, mode: Mode, z: int, t: int)
    requires WellFormed(f) && Holds(f, t) && t <= z
    ensures t <= RegisterUnits(f, mode, z)
  {
    hide RoundTo, Fits, Pow2, Largest;
    FittingNotCrossed(f.bits, f.least, mode, z, t);
    LargestIsLargest(f, t);
    LargestHeld(f);
  }

  // ---------- numbers and units ----------

  /** An integer against a number of units. */
  lemma IntegerInUnits(f: Format, n: int, z: int)
    ensures Units(f, n as real) == n * Pow2(f.unit)
    ensures n as real <= OfUnits(f, z) <==> n * Pow2(f.unit) <= z
    ensures n as real == OfUnits(f, z) <==> n * Pow2(f.unit) == z
    ensures OfUnits(f, z) <= n as real <==> z <= n * Pow2(f.unit)
  {
    hide Pow2;
    var w := Pow2(f.unit);
    ProductAsReal(n, w);
    IntegralOfInteger(Down, n * w);
    ScaledQuotient(n, z, w);
    QuotientTimes(z as real, w as real);
    if n as real <= OfUnits(f, z) {
      ScaledOrder(n as real, OfUnits(f, z), w as real, (n * w) as real, z as real);
    }
    if OfUnits(f, z) <= n as real {
      ScaledOrder(OfUnits(f, z), n as real, w as real, z as real, (n * w) as real);
    }
  }

  /** A number that is counted in whole units. */
  predicate Whole(f: Format, x: real) {
    x * Pow2(f.unit) as real == Units(f, x) as real
  }

  lemma WholeAgain(f: Format, x: real)
    requires Whole(f, x)
    ensures OfUnits(f, Units(f, x)) == x && Whole(f, -x) && Units(f, -x) == -Units(f, x)
  {
    hide Pow2, Units;
    var w, z := Pow2(f.unit) as real, Units(f, x);
    ProductQuotient(x, w, z);
    NegatedProduct(x, w, z);
    CountedInUnits(f, -x, -z);
  }

  lemma ProductQuotient(x: real, w: real, z: int)
    requires 0.0 < w && x * w == z as real
    ensures z as real / w == x
  {
  }

  lemma NegatedProduct(x: real, w: real, z: int)
    requires x * w == z as real
    ensures -x * w == (-z) as real
  {
  }

  lemma NegatedQuotient(z: int, q: nat)
    requires 0 < q
    ensures (-z) as real / q as real == -(z as real / q as real)
  {
    var w := q as real;
    QuotientTimes(z as real, w);
    NegatedProduct(z as real / w, w, z);
    ProductQuotient(-(z as real / w), w, -z);
  }

  /** The order of whole numbers of units. */
  lemma WholeOrder(f: Format, x: real, n: int)
    requires Whole(f, x)
    ensures n as real <= x <==> n * Pow2(f.unit) <= Units(f, x)
    ensures x <= n as real <==> Units(f, x) <= n * Pow2(f.unit)
    ensures x == n as real <==> Units(f, x) == n * Pow2(f.unit)
  {
    hide Pow2, Units, OfUnits, Whole;
    WholeAgain(f, x);
    IntegerInUnits(f, n, Units(f, x));
  }

  /** The unit is small enough for every double, and infinity is beyond them. */
  predicate ForDoubles(f: Format) {
    WellFormed(f) && 1074 <= f.unit && 1024 + f.unit <= f.infinity
  }

  /** The precision the control register selects: single numbers end at 2^-149 and 2^128, double ones at
      2^-1074 and 2^1024. The units are a double's last place, so extended precision needs no less. */
  function FormatOf(fpcr: bv32): (f: Format)
    ensures ForDoubles(f) && f.bits == BitsOf(fpcr) && 54 + f.unit <= f.top
    ensures BitsOf(fpcr) != 24 ==> 53 <= f.bits && f.least == 0 && 1024 + f.unit <= f.top
  {
    if BitsOf(fpcr) == 24 then Format(24, 1074 - 149, 1074 + 128, 1074, 1074 + 16384)
    else if BitsOf(fpcr) == 53 then Format(53, 0, 1074 + 1024, 1074, 1074 + 16384)
    else Format(64, 0, 1074 + 16384, 1074, 1074 + 16384)
  }

  lemma Twice(a: real, p: nat, m: int, q: nat)
    requires a * p as real == (m * q) as real
    ensures 2.0 * a * p as real == (m * (2 * q)) as real
    ensures a / 2.0 * (2 * p) as real == (m * q) as real
  {
    assert m * (2 * q) == 2 * (m * q);
    assert (2 * (m * q)) as real == 2.0 * (m * q) as real;
    assert (2 * p) as real == 2.0 * p as real;
    assert a / 2.0 * (2.0 * p as real) == a * p as real;
  }

  lemma ScaleStep(m: int, e: int)
    ensures Scale(m, 0) == m as real
    ensures 0 < e ==> Scale(m, e) == 2.0 * Scale(m, e - 1)
    ensures e < 0 ==> Scale(m, e) == Scale(m, e + 1) / 2.0
  {
  }

  lemma Pow2Step(k: nat)
    requires 0 < k
    ensures Pow2(k) == 2 * Pow2(k - 1)
  {
  }

  lemma {:induction false} ScaleInUnits(m: int, e: int, u: nat)
    requires 0 <= e + u
    ensures Scale(m, e) * Pow2(u) as real == (m * Pow2(e + u)) as real
    decreases if e < 0 then -e else e
  {
    hide Scale, Pow2;
    ScaleStep(m, e);
    if e == 0 {
      ProductAsReal(m, Pow2(u));
    } else if 0 < e {
      ScaleInUnits(m, e - 1, u);
      Twice(Scale(m, e - 1), Pow2(u), m, Pow2(e - 1 + u));
      Pow2Step(e + u);
    } else {
      ScaleInUnits(m, e + 1, u - 1);
      Twice(Scale(m, e + 1), Pow2(u - 1), m, Pow2(e + u));
      Pow2Step(u);
    }
  }

  lemma UnitsBound(m: int, i: nat, u: nat)
    requires Magnitude(m) < Pow2(53) && i <= 971 + u
    ensures Magnitude(m * Pow2(i)) < Pow2(1024 + u)
  {
    hide Pow2, Magnitude;
    MagnitudeTimes(m, Pow2(i));
    TimesPower(Magnitude(m), Pow2(53), Pow2(i));
    Pow2Sum(53, i);
    Pow2Ordered(53 + i, 1024 + u);
  }

  lemma CountedInUnits(f: Format, x: real, z: int)
    requires x * Pow2(f.unit) as real == z as real
    ensures Whole(f, x) && Units(f, x) == z
  {
    var y := x * Pow2(f.unit) as real;
    IntegralOfInteger(Down, z);
    assert Floor(y) == z;
    assert Units(f, x) == z;
  }

  lemma DoubleInUnits(f: Format, x: real) returns (m: int, i: nat)
    requires ForDoubles(f) && IsDouble(x)
    ensures Whole(f, x) && Units(f, x) == m * Pow2(i) && Magnitude(m) < Pow2(53) && i <= 971 + f.unit
    ensures Magnitude(Units(f, x)) < Pow2(1024 + f.unit) <= Pow2(f.infinity)
  {
    hide Pow2, Scale, Magnitude;
    var e: int;
    m, e :| DoubleParts(m, e) && x == Scale(m, e);
    i := e + f.unit;
    ScaleInUnits(m, e, f.unit);
    CountedInUnits(f, x, m * Pow2(i));
    UnitsBound(m, i, f.unit);
    Pow2Ordered(1024 + f.unit, f.infinity);
  }

  /** Double precision and more hold every double. */
  lemma DoubleHeld(f: Format, x: real)
    requires ForDoubles(f) && 53 <= f.bits && f.least == 0 && 1024 + f.unit <= f.top && IsDouble(x)
    ensures Holds(f, Units(f, x))
  {
    hide Pow2, Fits, Units, Whole, IsDouble;
    var m, i := DoubleInUnits(f, x);
    Pow2Ordered(53, f.bits);
    ScaledWholeFits(f.bits, 0, m, i);
    Pow2Ordered(1024 + f.unit, f.top);
  }

  // ---------- the mirror image ----------

  function Opposite(mode: Mode): Mode {
    match mode
    case Nearest => Nearest
    case Zero => Zero
    case Down => Up
    case Up => Down
  }

  lemma IntegralMirrored(mode: Mode, y: real)
    ensures ToIntegral(Opposite(mode), -y) == -ToIntegral(mode, y)
  {
    FloorIsGreatest(y, Floor(y));
    CeilingIsLeast(y, Floor(y));
    CeilingIsLeast(y, Floor(y) + 1);
  }

  lemma RoundingMirrored(bits: nat, least: nat, mode: Mode, z: int)
    ensures RoundTo(bits, least, Opposite(mode), -z) == -RoundTo(bits, least, mode, z)
  {
    hide ToIntegral, Exponent, Pow2;
    var q := Weight(bits, least, z);
    IntegralMirrored(mode, z as real / q as real);
    NegatedQuotient(z, q);
  }

  lemma RegisterMirrored(f: Format, mode: Mode, z: int)
    requires WellFormed(f)
    ensures RegisterUnits(f, Opposite(mode), -z) == -RegisterUnits(f, mode, z)
  {
    hide RoundTo, Pow2, Largest;
    RoundingMirrored(f.bits, f.least, mode, z);
  }

  lemma InRegisterMirrored(f: Format, mode: Mode, x: real)
    requires WellFormed(f) && Whole(f, x)
    ensures InRegister(f, Opposite(mode), -x) == -InRegister(f, mode, x)
  {
    hide RegisterUnits, Pow2, Whole;
    WholeAgain(f, x);
    RegisterMirrored(f, mode, Units(f, x));
  }

  // ---------- what each mode does ----------

  /** Towards zero is down for what is positive and up for the rest. */
  lemma ZeroIsDirected(bits: nat, least: nat, z: int)
    ensures RoundTo(bits, least, Zero, z) == RoundTo(bits, least, if 0 <= z then Down else Up, z)
  {
    hide Weight;
    var q := Weight(bits, least, z);
    ScaledQuotient(0, z, q);
    if z < 0 {
      CeilingIsLeast(z as real / q as real, 0);
    }
  }

  /** Down never goes up, up never down, and towards zero never away from it, infinity included. */
  lemma ReceivedDirection(f: Format, mode: Mode, z: int)
    requires WellFormed(f) && Magnitude(z) < Pow2(f.infinity)
    ensures mode == Down ==> RegisterUnits(f, mode, z) <= z
    ensures mode == Up ==> z <= RegisterUnits(f, mode, z)
    ensures mode == Zero ==> Magnitude(RegisterUnits(f, mode, z)) <= Magnitude(z)
  {
    hide RoundTo, Fits, Pow2, Largest;
    RoundingClose(f.bits, f.least, mode, z);
    if mode == Zero {
      ZeroIsDirected(f.bits, f.least, z);
      RoundingClose(f.bits, f.least, if 0 <= z then Down else Up, z);
      ZeroHeld(f);
      HeldNotCrossedBelow(f, mode, z, 0);
    }
    LargestHeld(f);
  }

  lemma ZeroHeld(f: Format)
    requires WellFormed(f)
    ensures Holds(f, 0)
  {
  }

  lemma HeldNotCrossedBelow(f: Format, mode: Mode, z: int, t: int)
    requires WellFormed(f) && Holds(f, t)
    ensures z <= t ==> RegisterUnits(f, mode, z) <= t
    ensures t <= z ==> t <= RegisterUnits(f, mode, z)
  {
    hide RegisterUnits, Holds;
    if t <= z {
      HeldNotCrossed(f, mode, z, t);
    }
    if z <= t {
      OppositeTwice(mode);
      RegisterMirrored(f, mode, z);
      NegativeHeld(f, t);
      HeldNotCrossed(f, Opposite(mode), -z, -t);
    }
  }

  lemma OppositeTwice(mode: Mode)
    ensures Opposite(Opposite(mode)) == mode
  {
  }

  lemma NegativeHeld(f: Format, t: int)
    requires Holds(f, t)
    ensures Holds(f, -t)
  {
    hide Pow2, Exponent;
    NegatedMultiple(t, Weight(f.bits, f.least, t));
  }

  /** A number too large: infinity, or the greatest number that is not. */
  lemma OverflowReceived(f: Format, mode: Mode, z: int)
    requires WellFormed(f) && Pow2(f.top) <= z
    ensures RegisterUnits(f, mode, z) ==
            if mode in {Nearest, Up} then Pow2(f.infinity) else Pow2(f.top) - Pow2(f.top - f.bits)
  {
    hide RoundTo, Fits, Pow2, Magnitude;
    PowerDivides(f.top - f.bits, f.top);
    var p: int := Pow2(f.top);
    PowerMagnitude(f.top);
    MultipleFits(f.bits, f.least, p, f.top - f.bits);
    FittingNotCrossed(f.bits, f.least, mode, z, p);
    Nonnegative(RoundTo(f.bits, f.least, mode, z));
  }

  lemma PowerMagnitude(i: nat)
    ensures Magnitude(Pow2(i)) == Pow2(i)
  {
  }

  lemma Nonnegative(z: int)
    ensures 0 <= z ==> Magnitude(z) == z
  {
  }

  /** A positive number below the least one: that one or zero. */
  lemma UnderflowReceived(f: Format, mode: Mode, z: int)
    requires WellFormed(f) && 0 < z < Pow2(f.least)
    ensures RegisterUnits(f, mode, z) ==
            match mode
            case Nearest => if 2 * z <= Pow2(f.least) then 0 else Pow2(f.least)
            case Up => Pow2(f.least)
            case _ => 0
  {
    hide Pow2, Exponent, Largest;
    var q := Pow2(f.least);
    Pow2Ordered(f.least, f.bits + f.least);
    Pow2Ordered(f.least, f.top);
    Pow2Grows(f.least, f.top);
    ExponentIs(f.bits, f.least, z, f.least);
    var y := z as real / q as real;
    QuotientTimes(z as real, q as real);
    BelowOne(y, z, q);
    assert 1 * q == q && 0 * q == 0;
  }

  /** A quotient between zero and one, rounded. */
  lemma BelowOne(y: real, z: int, q: nat)
    requires 0 < z < q && y * q as real == z as real
    ensures ToIntegral(Nearest, y) == if 2 * z <= q then 0 else 1
    ensures ToIntegral(Up, y) == 1 && ToIntegral(Down, y) == ToIntegral(Zero, y) == 0
  {
    var w := q as real;
    if y <= 0.0 {
      ScaledOrder(y, 0.0, w, z as real, 0.0);
    }
    if 1.0 <= y {
      ScaledOrder(1.0, y, w, w, z as real);
    }
    if y <= 0.5 {
      ScaledOrder(y, 0.5, w, z as real, 0.5 * w);
    } else {
      ProductPositive(y - 0.5, w, z as real - 0.5 * w);
    }
    CeilingIsLeast(y, 1);
    CeilingIsLeast(y, 0);
  }

  lemma ScaledDistance(n: int, z: int, q: nat)
    requires 0 < q
    ensures Distance(n, z as real / q as real) * q as real == Magnitude(n * q - z) as real
  {
    var y, w := z as real / q as real, q as real;
    QuotientTimes(z as real, w);
    ProductAsReal(n, q);
    ScaledQuotient(n, z, q);
    assert (n as real - y) * w == n as real * w - y * w;
  }

  lemma NearerMultiple(n: int, m: int, z: int, q: nat)
    requires 0 < q && Distance(n, z as real / q as real) <= Distance(m, z as real / q as real)
    ensures Magnitude(n * q - z) <= Magnitude(m * q - z)
  {
    hide Distance, Magnitude;
    var y := z as real / q as real;
    ScaledDistance(n, z, q);
    ScaledDistance(m, z, q);
    ScaledOrder(Distance(n, y), Distance(m, y), q as real,
                Magnitude(n * q - z) as real, Magnitude(m * q - z) as real);
  }

  /** Rounding to nearest is at most as far away as either direction. */
  lemma NearestIsBetween(bits: nat, least: nat, z: int, mode: Mode)
    ensures Magnitude(RoundTo(bits, least, Nearest, z) - z) <= Magnitude(RoundTo(bits, least, mode, z) - z)
  {
    hide Weight, Distance, Magnitude, NearestEven;
    var q := Weight(bits, least, z);
    var y := z as real / q as real;
    NearestIsNearest(y, ToIntegral(mode, y));
    NearerMultiple(NearestEven(y), ToIntegral(mode, y), z, q);
  }

  /** To nearest: no number that the precision holds is nearer than the one received. */
  lemma NearestReceived(f: Format, z: int, t: int)
    requires WellFormed(f) && Holds(f, t) && Magnitude(RoundTo(f.bits, f.least, Nearest, z)) < Pow2(f.top)
    ensures Magnitude(RegisterUnits(f, Nearest, z) - z) <= Magnitude(t - z)
  {
    hide RoundTo, Fits, Pow2, Largest;
    if t <= z {
      FittingNotCrossed(f.bits, f.least, Down, z, t);
      RoundingClose(f.bits, f.least, Down, z);
      NearestIsBetween(f.bits, f.least, z, Down);
    } else {
      NegativeHeld(f, t);
      FittingNotCrossed(f.bits, f.least, Down, -z, -t);
      RoundingMirrored(f.bits, f.least, Up, z);
      RoundingClose(f.bits, f.least, Up, z);
      NearestIsBetween(f.bits, f.least, z, Up);
    }
  }
}
