/** Truncating and adjusting by one, at any precision and in any mode: when that is the floor and the
    ceiling. */
module FpuAdjusting {
  import opened FpuArithmetic
  import opened FpuPrecision

  /** The operand is moved to another register, truncated, compared with what was moved, and lowered
      by one unless it already is at most that. */
  function AdjustedFloor(f: Format, mode: Mode, x: real): real
    requires WellFormed(f)
  {
    var t := Truncate(x) as real;
    if t <= InRegister(f, mode, x) then t else InRegister(f, mode, t - 1.0)
  }

  function AdjustedCeiling(f: Format, mode: Mode, x: real): real
    requires WellFormed(f)
  {
    var t := Truncate(x) as real;
    if t >= InRegister(f, mode, x) then t else InRegister(f, mode, t + 1.0)
  }

  /** When that is the floor. If truncating already gives it, the moved operand must not have been
      rounded below it; otherwise the moved operand must still be below the truncated one, and the
      adjusted one must fit the significand. */
  predicate FloorKept(f: Format, mode: Mode, x: real)
    requires WellFormed(f)
  {
    var t, moved := Truncate(x) as real, InRegister(f, mode, x);
    if x >= 0.0 || Integral(x) then t <= moved else moved < t && FitsBits(f.bits, Floor(x))
  }

  predicate CeilingKept(f: Format, mode: Mode, x: real)
    requires WellFormed(f)
  {
    var t, moved := Truncate(x) as real, InRegister(f, mode, x);
    if x <= 0.0 || Integral(x) then t >= moved else moved > t && FitsBits(f.bits, Ceiling(x))
  }

  /** Truncating is the floor or, of a negative number that is not integral, one more. */
  lemma TruncatedFloor(x: real)
    ensures x >= 0.0 || Integral(x) ==> Truncate(x) == Floor(x)
    ensures x < 0.0 && !Integral(x) ==> Truncate(x) == Floor(x) + 1 && x < Truncate(x) as real
  {
    CeilingIsLeast(x, Floor(x));
    CeilingIsLeast(x, Floor(x) + 1);
  }

  lemma OneLess(t: int)
    ensures t as real - 1.0 == (t - 1) as real
  {
  }

  /** No rounding of t - 1 gives t when t was crossed by rounding something above it. */
  lemma CrossedIsNotReached(f: Format, mode: Mode, z: int, t: int, w: int)
    requires WellFormed(f) && t <= z && RegisterUnits(f, mode, z) < t && Magnitude(t) < Pow2(f.infinity)
    ensures RegisterUnits(f, mode, w) != t
  {
    hide RegisterUnits, Holds, Pow2, Magnitude;
    if RegisterUnits(f, mode, w) == t {
      RegisterHolds(f, mode, w);
      HeldNotCrossed(f, mode, z, t);
    }
  }

  lemma SameFactor(a: int, b: int, w: nat)
    requires 0 < w && a * w == b * w
    ensures a == b
  {
    Factored(a, b, w);
    if a != b {
      BigMultiple(a - b, w);
    }
  }

  /** An integer up to 2^52 is received rounded to the significand: its size does not matter. */
  lemma IntegerReceived(f: Format, mode: Mode, n: int)
    requires ForDoubles(f) && 54 + f.unit <= f.top && Magnitude(n) <= Pow2(52)
    ensures RegisterUnits(f, mode, n * Pow2(f.unit)) == RoundToBits(f.bits, mode, n) * Pow2(f.unit)
  {
    hide RoundTo, Pow2, Magnitude, Exponent, RoundToBits;
    var z := n * Pow2(f.unit);
    RoundingScales(f.bits, f.least, mode, n, f.unit);
    IntegerStaysSmall(f, mode, n);
  }

  lemma IntegerStaysSmall(f: Format, mode: Mode, n: int)
    requires ForDoubles(f) && 54 + f.unit <= f.top && Magnitude(n) <= Pow2(52)
    ensures Magnitude(RoundTo(f.bits, f.least, mode, n * Pow2(f.unit))) < Pow2(f.top)
  {
    hide RoundTo, Pow2, Magnitude;
    Pow2Grows(52, 53);
    ScaledBetween(n, 0, Pow2(53), Pow2(f.unit));
    Pow2Sum(53, f.unit);
    RoundedStaysSmall(f.bits, f.least, mode, n * Pow2(f.unit), 53 + f.unit, f.top);
  }

  lemma RoundedStaysSmall(bits: nat, least: nat, mode: Mode, z: int, size: nat, top: nat)
    requires Magnitude(z) < Pow2(size) && size < top && bits + least < top
    ensures Magnitude(RoundTo(bits, least, mode, z)) < Pow2(top)
  {
    hide Pow2, Magnitude, Exponent, ToIntegral;
    var e := Exponent(bits, least, Magnitude(z));
    Pow2Sum(bits, e);
    RoundedBound(mode, z, Pow2(e), Pow2(bits));
    if e != least && size < bits + e {
      Pow2Ordered(size, bits + e - 1);
    }
    Pow2Grows(bits + e, top);
  }

  /** Any number of such a size is received with its significand rounded, the exponent aside. */
  lemma ScaledReceived(f: Format, mode: Mode, m: int, e: int)
    requires ForDoubles(f) && 54 + f.unit <= f.top && Magnitude(m) <= Pow2(52)
    requires e <= 0 && f.least <= e + f.unit
    ensures InRegister(f, mode, Scale(m, e)) == Scale(RoundToBits(f.bits, mode, m), e)
  {
    hide Pow2, Magnitude, Exponent, Scale, RoundTo, RoundToBits, Whole, Units, OfUnits;
    var r, i := RoundToBits(f.bits, mode, m), e + f.unit;
    ScaleInUnits(m, e, f.unit);
    ScaleInUnits(r, e, f.unit);
    CountedInUnits(f, Scale(m, e), m * Pow2(i));
    CountedInUnits(f, Scale(r, e), r * Pow2(i));
    WholeAgain(f, Scale(r, e));
    RoundingScales(f.bits, f.least, mode, m, i);
    RoundingScales(f.bits, f.least, mode, m, f.unit);
    IntegerStaysSmall(f, mode, m);
    MagnitudeTimes(r, Pow2(i));
    MagnitudeTimes(r, Pow2(f.unit));
    Pow2Ordered(i, f.unit);
    FactorOrdered(Magnitude(r), Pow2(i), Pow2(f.unit));
  }

  lemma FactorOrdered(a: nat, p: nat, q: nat)
    requires p <= q
    ensures a * p <= a * q
  {
  }

  /** Truncating does not make a magnitude greater. */
  lemma TruncatedBound(f: Format, x: real)
    requires Whole(f, x)
    ensures Magnitude(Truncate(x) * Pow2(f.unit)) <= Magnitude(Units(f, x))
  {
    hide Pow2, Whole, Units, Truncate;
    TruncateIsTowardsZero(x);
    WholeOrder(f, x, 0);
    WholeOrder(f, x, Truncate(x));
    ProductOrdered(0, Magnitude(Truncate(x)), Pow2(f.unit));
    MagnitudeTimes(Truncate(x), Pow2(f.unit));
  }

  /** Where truncating gives the floor: right exactly when nothing is adjusted. */
  lemma UnadjustedFloor(f: Format, mode: Mode, x: real)
    requires ForDoubles(f) && IsDouble(x) && (x >= 0.0 || Integral(x))
    ensures AdjustedFloor(f, mode, x) == Floor(x) as real <==> Truncate(x) as real <= InRegister(f, mode, x)
  {
    hide RegisterUnits, Pow2, Whole, Units, OfUnits, IsDouble, Truncate, Magnitude;
    var m, i := DoubleInUnits(f, x);
    var t, w := Truncate(x), Pow2(f.unit);
    TruncatedFloor(x);
    TruncatedBound(f, x);
    WholeOrder(f, x, t);
    IntegerInUnits(f, t, RegisterUnits(f, mode, Units(f, x)));
    OneLess(t);
    IntegerInUnits(f, t - 1, 0);
    IntegerInUnits(f, t, RegisterUnits(f, mode, (t - 1) * w));
    if RegisterUnits(f, mode, Units(f, x)) < t * w {
      CrossedIsNotReached(f, mode, Units(f, x), t * w, (t - 1) * w);
    }
  }

  /** Where it does not: right exactly when something is adjusted and the floor fits. */
  lemma LoweredFloor(f: Format, mode: Mode, x: real)
    requires ForDoubles(f) && 54 + f.unit <= f.top && IsDouble(x) && x < 0.0 && !Integral(x)
    ensures AdjustedFloor(f, mode, x) == Floor(x) as real
            <==> InRegister(f, mode, x) < Truncate(x) as real && FitsBits(f.bits, Floor(x))
  {
    hide RegisterUnits, Pow2, Whole, Units, OfUnits, IsDouble, Truncate, Magnitude, FitsBits;
    var n := Floor(x);
    TruncatedFloor(x);
    OneLess(n + 1);
    SmallFloor(x);
    IntegerInUnits(f, n, RegisterUnits(f, mode, n * Pow2(f.unit)));
    IntegerReceived(f, mode, n);
    RoundedToBits(f, mode, n);
  }

  lemma RoundedToBits(f: Format, mode: Mode, n: int)
    ensures RoundToBits(f.bits, mode, n) * Pow2(f.unit) == n * Pow2(f.unit) <==> FitsBits(f.bits, n)
  {
    hide RoundTo, Fits, Pow2;
    RoundingExact(f.bits, 0, mode, n);
    if RoundToBits(f.bits, mode, n) * Pow2(f.unit) == n * Pow2(f.unit) {
      SameFactor(RoundToBits(f.bits, mode, n), n, Pow2(f.unit));
    }
  }

  lemma SmallFloor(x: real)
    requires IsDouble(x) && x < 0.0 && !Integral(x)
    ensures Magnitude(Floor(x)) <= Pow2(52)
  {
    hide Pow2, IsDouble;
    NonIntegralIsSmall(x);
    var p: int := Pow2(52);
    FloorIsGreatest(x, -p);
    assert (-p) as real == -(p as real);
  }

  /** Truncate-and-adjust is the floor of a double exactly when the move and the subtraction keep it. */
  lemma AdjustedFloorExact(f: Format, mode: Mode, x: real)
    requires ForDoubles(f) && 54 + f.unit <= f.top && IsDouble(x)
    ensures AdjustedFloor(f, mode, x) == Floor(x) as real <==> FloorKept(f, mode, x)
  {
    hide AdjustedFloor, InRegister, Pow2, IsDouble, FitsBits;
    if x >= 0.0 || Integral(x) {
      UnadjustedFloor(f, mode, x);
    } else {
      LoweredFloor(f, mode, x);
    }
  }

  /** An operand that the precision holds is safe, as one is that was loaded at that precision: if it
      is not integral, its floor fits too. */
  lemma HeldFloorKept(f: Format, mode: Mode, x: real)
    requires ForDoubles(f) && IsDouble(x) && Holds(f, Units(f, x))
    ensures FloorKept(f, mode, x)
  {
    hide RegisterUnits, Pow2, Whole, Units, OfUnits, IsDouble, Holds, FitsBits;
    var m, i := DoubleInUnits(f, x);
    HeldStays(f, mode, Units(f, x));
    WholeAgain(f, x);
    TruncatedFloor(x);
    if x < 0.0 && !Integral(x) {
      HeldFloorFits(f, x);
    }
  }

  lemma HeldFloorFits(f: Format, x: real)
    requires WellFormed(f) && Whole(f, x) && x < 0.0 && !Integral(x) && Holds(f, Units(f, x))
    ensures FitsBits(f.bits, Floor(x))
  {
    hide Pow2, Exponent, Whole, Units, Integral;
    var z, n, w := Units(f, x), Floor(x), Pow2(f.unit);
    var e := Exponent(f.bits, f.least, Magnitude(z));
    WholeOrder(f, x, 0);
    FractionIsNotWhole(f, x);
    if f.unit <= e {
      var k := CoarserMultiple(z, f.unit, e);
    } else {
      FloorIsGreatest(x, n);
      WholeOrder(f, x, n + 1);
      Pow2Ordered(f.bits + e, f.bits - 1 + f.unit);
      Pow2Sum(f.bits - 1, f.unit);
      FloorBelow(n, z, Pow2(f.bits - 1), w);
      Pow2Step(f.bits);
      ExponentIs(f.bits, 0, Magnitude(n), 0);
      FitsWhole(f.bits, n);
    }
  }

  lemma FractionIsNotWhole(f: Format, x: real)
    requires Whole(f, x) && !Integral(x)
    ensures Units(f, x) % Pow2(f.unit) != 0
    ensures Units(f, x) < (Floor(x) + 1) * Pow2(f.unit)
  {
    hide Pow2, Whole, Units;
    var w, z := Pow2(f.unit), Units(f, x);
    if z % w == 0 {
      WholeOrder(f, x, z / w);
      IntegralOfInteger(Down, z / w);
    }
    WholeOrder(f, x, Floor(x) + 1);
  }

  /** The floor of a number above -p is -p at the least. */
  lemma FloorBelow(n: int, z: int, p: nat, w: nat)
    requires 0 < w && -(p * w) < z < (n + 1) * w
    ensures -(p as int) <= n
  {
    var least: int := -(p as int);
    assert least * w == -(p * w);
    if n < least {
      ProductOrdered(n + 1, least, w);
    }
  }

  // ---------- the ceiling, by symmetry ----------

  lemma TruncateMirrored(x: real)
    ensures Truncate(-x) == -Truncate(x) && Floor(-x) == -Ceiling(x) && (Integral(-x) <==> Integral(x))
  {
    IntegralMirrored(Zero, x);
    IntegralOfInteger(Down, -Floor(x));
    IntegralOfInteger(Down, -Floor(-x));
  }

  lemma CeilingMirrored(f: Format, mode: Mode, x: real)
    requires ForDoubles(f) && IsDouble(x)
    ensures AdjustedCeiling(f, mode, x) == -AdjustedFloor(f, Opposite(mode), -x)
    ensures CeilingKept(f, mode, x) <==> FloorKept(f, Opposite(mode), -x)
  {
    hide InRegister, Pow2, Whole, Units, IsDouble, Truncate, Magnitude, FitsBits, Integral;
    var m, i := DoubleInUnits(f, x);
    TruncateMirrored(x);
    InRegisterMirrored(f, mode, x);
    var t := Truncate(x);
    IntegerWhole(f, t + 1);
    InRegisterMirrored(f, mode, (t + 1) as real);
    assert t as real + 1.0 == (t + 1) as real;
    FitsMirrored(f.bits, Ceiling(x));
  }

  lemma IntegerWhole(f: Format, n: int)
    ensures Whole(f, n as real)
  {
    hide Pow2;
    ProductAsReal(n, Pow2(f.unit));
    CountedInUnits(f, n as real, n * Pow2(f.unit));
  }

  lemma FitsMirrored(bits: nat, n: int)
    ensures FitsBits(bits, -n) <==> FitsBits(bits, n)
  {
    hide Pow2, Exponent;
    var q := Weight(bits, 0, n);
    if n % q == 0 {
      NegatedMultiple(n, q);
    }
    if -n % q == 0 {
      NegatedMultiple(-n, q);
    }
  }

  lemma DoubleMirrored(x: real)
    requires IsDouble(x)
    ensures IsDouble(-x)
  {
    var m: int, e: int :| DoubleParts(m, e) && x == Scale(m, e);
    ScaleMirrored(m, e);
    assert DoubleParts(-m, e);
  }

  lemma {:induction false} ScaleMirrored(m: int, e: int)
    ensures Scale(-m, e) == -Scale(m, e)
    decreases if e < 0 then -e else e
  {
    if e == 0 {
    } else {
      ScaleMirrored(m, if 0 < e then e - 1 else e + 1);
    }
  }

  /** Likewise the ceiling. */
  lemma AdjustedCeilingExact(f: Format, mode: Mode, x: real)
    requires ForDoubles(f) && 54 + f.unit <= f.top && IsDouble(x)
    ensures AdjustedCeiling(f, mode, x) == Ceiling(x) as real <==> CeilingKept(f, mode, x)
  {
    hide AdjustedFloor, AdjustedCeiling, FloorKept, CeilingKept, Pow2, IsDouble;
    DoubleMirrored(x);
    CeilingMirrored(f, mode, x);
    AdjustedFloorExact(f, Opposite(mode), -x);
    TruncateMirrored(x);
    assert Floor(-x) as real == -(Ceiling(x) as real);
  }

  lemma HeldCeilingKept(f: Format, mode: Mode, x: real)
    requires ForDoubles(f) && IsDouble(x) && Holds(f, Units(f, x))
    ensures CeilingKept(f, mode, x)
  {
    hide FloorKept, CeilingKept, Pow2, IsDouble, Holds, Units, Whole;
    DoubleMirrored(x);
    var m, i := DoubleInUnits(f, x);
    WholeAgain(f, x);
    NegativeHeld(f, Units(f, x));
    CeilingMirrored(f, mode, x);
    HeldFloorKept(f, Opposite(mode), -x);
  }

  // ---------- the ends of a format ----------

  /** m * 2^e in units. */
  lemma ScaleCounted(f: Format, m: int, e: int)
    requires 0 <= e + f.unit
    ensures Whole(f, Scale(m, e)) && Units(f, Scale(m, e)) == m * Pow2(e + f.unit)
    ensures OfUnits(f, m * Pow2(e + f.unit)) == Scale(m, e)
  {
    hide Scale, Pow2, Whole, Units, OfUnits;
    ScaleInUnits(m, e, f.unit);
    CountedInUnits(f, Scale(m, e), m * Pow2(e + f.unit));
    WholeAgain(f, Scale(m, e));
  }

  /** Whole numbers of units are ordered as their counts are. */
  lemma CountsOrdered(f: Format, x: real, y: real)
    requires Whole(f, x) && Whole(f, y)
    ensures x <= y <==> Units(f, x) <= Units(f, y)
  {
    hide Pow2;
    var w := Pow2(f.unit) as real;
    if x <= y {
      ScaledOrder(x, y, w, Units(f, x) as real, Units(f, y) as real);
    } else {
      ProductPositive(x - y, w, Units(f, x) as real - Units(f, y) as real);
    }
  }

  lemma OverflowUpwards(f: Format, mode: Mode, x: real)
    requires ForDoubles(f) && f.bits == 24 && f.top == 128 + f.unit && f.infinity == 16384 + f.unit
    requires IsDouble(x) && Scale(1, 128) <= x
    ensures InRegister(f, mode, x) == if mode in {Nearest, Up} then Scale(1, 16384) else Scale(0xff_ffff, 104)
  {
    hide IsDouble, Scale, Pow2, Whole, Units, OfUnits, RegisterUnits;
    var m, i := DoubleInUnits(f, x);
    ScaleCounted(f, 1, 128);
    CountsOrdered(f, Scale(1, 128), x);
    OverflowReceived(f, mode, Units(f, x));
    ScaleCounted(f, 1, 16384);
    ScaleCounted(f, 0xff_ffff, 104);
    AllOnes(104 + f.unit);
  }

  lemma AllOnes(e: nat)
    ensures 0xff_ffff * Pow2(e) == Pow2(24 + e) - Pow2(e)
  {
    hide Pow2;
    Pow2Sum(24, e);
    TwentyFour();
  }

  lemma TwentyFour()
    ensures Pow2(24) == 0x100_0000
  {
    assert Pow2(8) == 0x100;
    assert Pow2(16) == 0x1_0000;
  }

  lemma UnderflowUpwards(f: Format, mode: Mode, x: real)
    requires ForDoubles(f) && f.least == f.unit - 149 && IsDouble(x) && 0.0 < x < Scale(1, -149)
    ensures InRegister(f, mode, x) == match mode
                                      case Nearest => if x <= Scale(1, -150) then 0.0 else Scale(1, -149)
                                      case Up => Scale(1, -149)
                                      case _ => 0.0
  {
    hide IsDouble, Scale, Pow2, Whole, Units, OfUnits, RegisterUnits;
    var m, i := DoubleInUnits(f, x);
    ScaleCounted(f, 1, -149);
    ScaleCounted(f, 1, -150);
    Pow2Step(f.least);
    CountsOrdered(f, Scale(1, -149), x);
    CountsOrdered(f, x, Scale(1, -150));
    WholeOrder(f, x, 0);
    UnderflowReceived(f, mode, Units(f, x));
    IntegerInUnits(f, 0, 0);
  }
}
