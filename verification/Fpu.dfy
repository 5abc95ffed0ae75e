/** floor, ceil, trunc and nearbyint in both versions - truncating and adjusting by one, and
    switching the rounding mode around a conversion through a 32-bit integer - and the functions
    that manage the control register. Operands are finite. */
module Fpu {
  import opened FpuArithmetic
  import opened FpuPrecision
  import opened FpuAdjusting

  // ---------- the two versions as functions of the control register and the operand ----------

  /** What a register receives of x under a control register value. */
  function Moved(fpcr: bv32, x: real): real {
    InRegister(FormatOf(fpcr), ModeOf(fpcr), x)
  }

  /** An integer as the selected precision delivers it. */
  function Rounded(fpcr: bv32, n: int): real {
    Moved(fpcr, n as real)
  }

  function Floor060(fpcr: bv32, x: real): real {
    AdjustedFloor(FormatOf(fpcr), ModeOf(fpcr), x)
  }

  function Ceil060(fpcr: bv32, x: real): real {
    AdjustedCeiling(FormatOf(fpcr), ModeOf(fpcr), x)
  }

  predicate Fits32(n: int) {
    -0x8000_0000 <= n < 0x8000_0000
  }

  /** The conversion to a 32-bit integer delivers the nearest one when the value is out of range. */
  function Saturate(n: int): int {
    if n < -0x8000_0000 then -0x8000_0000 else if n >= 0x8000_0000 then 0x7fff_ffff else n
  }

  /** The operand as a 32-bit integer and back, under a control register value. */
  function ThroughInteger(fpcr: bv32, x: real): real {
    Rounded(fpcr, Saturate(ToIntegral(ModeOf(fpcr), x)))
  }

  function CeilControl(fpcr: bv32): bv32 {
    fpcr | 0x30
  }

  function FloorControl(fpcr: bv32): bv32 {
    (fpcr | 0x20) & 0xffff_ffef
  }

  function TruncControl(fpcr: bv32): bv32 {
    (fpcr | 0x10) & 0xffff_ffdf
  }

  /** The control values select their mode and keep the precision, whatever was there before. */
  lemma Controls(fpcr: bv32)
    ensures ModeOf(CeilControl(fpcr)) == Up && PrecField(CeilControl(fpcr)) == PrecField(fpcr)
    ensures ModeOf(FloorControl(fpcr)) == Down && PrecField(FloorControl(fpcr)) == PrecField(fpcr)
    ensures ModeOf(TruncControl(fpcr)) == Zero && PrecField(TruncControl(fpcr)) == PrecField(fpcr)
    ensures BitsOf(CeilControl(fpcr)) == BitsOf(FloorControl(fpcr)) == BitsOf(TruncControl(fpcr)) == BitsOf(fpcr)
  {
  }

  /** Bit by bit: the rounding field becomes 11, 10 and 01, and every other bit stays. */
  lemma CeilControlBits(fpcr: bv32)
    ensures CeilControl(fpcr) == (fpcr & 0xffff_ffcf) | 0x30
  {
  }

  lemma FloorControlBits(fpcr: bv32)
    ensures FloorControl(fpcr) == (fpcr & 0xffff_ffcf) | 0x20
  {
  }

  lemma TruncControlBits(fpcr: bv32)
    ensures TruncControl(fpcr) == (fpcr & 0xffff_ffcf) | 0x10
  {
  }

  /** What the codes in the control register stand for. */
  lemma Codes(fpcr: bv32)
    ensures fpcr & 0x30 == 0x00 <==> ModeOf(fpcr) == Nearest
    ensures fpcr & 0x30 == 0x10 <==> ModeOf(fpcr) == Zero
    ensures fpcr & 0x30 == 0x20 <==> ModeOf(fpcr) == Down
    ensures fpcr & 0x30 == 0x30 <==> ModeOf(fpcr) == Up
    ensures fpcr & 0xc0 == 0x40 <==> BitsOf(fpcr) == 24
    ensures fpcr & 0xc0 == 0x80 <==> BitsOf(fpcr) == 53
    ensures fpcr & 0xc0 in {0x00, 0xc0} <==> BitsOf(fpcr) == 64
  {
  }

  // ---------- exactness ----------

  /** For integers up to 2^52 that is rounding to the significand. */
  lemma RoundedInteger(fpcr: bv32, n: int)
    requires Magnitude(n) <= Pow2(52)
    ensures Rounded(fpcr, n) == RoundToBits(BitsOf(fpcr), ModeOf(fpcr), n) as real
  {
    hide Pow2, Units, OfUnits, RegisterUnits, RoundToBits, FormatOf, BitsOf, ModeOf, Magnitude;
    var f, r := FormatOf(fpcr), RoundToBits(BitsOf(fpcr), ModeOf(fpcr), n);
    IntegerReceived(f, ModeOf(fpcr), n);
    IntegerInUnits(f, n, 0);
    IntegerInUnits(f, r, r * Pow2(f.unit));
  }

  lemma RoundedExact(fpcr: bv32, n: int)
    requires Magnitude(n) <= Pow2(52)
    ensures Rounded(fpcr, n) == n as real <==> FitsBits(BitsOf(fpcr), n)
  {
    hide Pow2, RoundTo, Fits, BitsOf, ModeOf, Moved, Magnitude;
    RoundedInteger(fpcr, n);
    RoundingExact(BitsOf(fpcr), 0, ModeOf(fpcr), n);
  }

  /** The selected precision holds the operand: it was loaded at that precision, for instance. */
  predicate OperandHeld(fpcr: bv32, x: real) {
    Holds(FormatOf(fpcr), Units(FormatOf(fpcr), x))
  }

  /** When truncating and subtracting is the floor: see FloorKept. */
  predicate FloorRight(fpcr: bv32, x: real) {
    FloorKept(FormatOf(fpcr), ModeOf(fpcr), x)
  }

  predicate CeilRight(fpcr: bv32, x: real) {
    CeilingKept(FormatOf(fpcr), ModeOf(fpcr), x)
  }

  /** Double and extended precision hold every double. */
  lemma WideHolds(fpcr: bv32, x: real)
    requires IsDouble(x) && BitsOf(fpcr) != 24
    ensures OperandHeld(fpcr, x)
  {
    hide Pow2, IsDouble, Holds, Units, BitsOf;
    DoubleHeld(FormatOf(fpcr), x);
  }

  /** Truncate-and-adjust floor of a double is exact for operands that the selected precision holds,
      so at double and extended precision always, and otherwise exactly when the move and the
      subtraction keep it. */
  lemma Floor060Exact(fpcr: bv32, x: real)
    requires IsDouble(x)
    ensures BitsOf(fpcr) != 24 || OperandHeld(fpcr, x) ==> Floor060(fpcr, x) == Floor(x) as real
    ensures Floor060(fpcr, x) == Floor(x) as real <==> FloorRight(fpcr, x)
  {
    hide Pow2, IsDouble, OperandHeld, FloorKept, AdjustedFloor, BitsOf;
    var f := FormatOf(fpcr);
    AdjustedFloorExact(f, ModeOf(fpcr), x);
    if BitsOf(fpcr) != 24 {
      WideHolds(fpcr, x);
    }
    if OperandHeld(fpcr, x) {
      HeldOperand(fpcr, x);
    }
  }

  lemma HeldOperand(fpcr: bv32, x: real)
    requires IsDouble(x) && OperandHeld(fpcr, x)
    ensures FloorRight(fpcr, x) && CeilRight(fpcr, x)
  {
    hide Pow2, IsDouble, FloorKept, CeilingKept, Holds, Units, BitsOf, ModeOf;
    HeldFloorKept(FormatOf(fpcr), ModeOf(fpcr), x);
    HeldCeilingKept(FormatOf(fpcr), ModeOf(fpcr), x);
  }

  /** Likewise the ceiling. */
  lemma Ceil060Exact(fpcr: bv32, x: real)
    requires IsDouble(x)
    ensures BitsOf(fpcr) != 24 || OperandHeld(fpcr, x) ==> Ceil060(fpcr, x) == Ceiling(x) as real
    ensures Ceil060(fpcr, x) == Ceiling(x) as real <==> CeilRight(fpcr, x)
  {
    hide Pow2, IsDouble, OperandHeld, CeilingKept, AdjustedCeiling, BitsOf;
    var f := FormatOf(fpcr);
    AdjustedCeilingExact(f, ModeOf(fpcr), x);
    if BitsOf(fpcr) != 24 {
      WideHolds(fpcr, x);
    }
    if OperandHeld(fpcr, x) {
      HeldOperand(fpcr, x);
    }
  }

  lemma SmallFitsOf(fpcr: bv32, z: int)
    requires Magnitude(z) <= Pow2(52)
    ensures BitsOf(fpcr) != 24 ==> FitsBits(BitsOf(fpcr), z)
  {
    hide Pow2, FitsBits, Magnitude;
    if BitsOf(fpcr) != 24 {
      SmallFits(BitsOf(fpcr), z);
    }
  }

  /** A number of single's range is received with its significand rounded. */
  lemma MovedScaled(fpcr: bv32, m: int, e: int)
    requires Magnitude(m) <= Pow2(52) && -149 <= e <= 0
    ensures Moved(fpcr, Scale(m, e)) == Scale(RoundToBits(BitsOf(fpcr), ModeOf(fpcr), m), e)
  {
    hide Pow2, Magnitude, Scale, RoundToBits, InRegister, BitsOf, ModeOf;
    ScaledReceived(FormatOf(fpcr), ModeOf(fpcr), m, e);
  }

  /** Single precision ends at 2^128: a greater double becomes infinite, which is kept as 2^16384, or
      the last single number, 24 ones, by mode and sign. */
  lemma SingleOverflow(fpcr: bv32, x: real)
    requires BitsOf(fpcr) == 24 && IsDouble(x)
    ensures Scale(1, 128) <= x ==>
              Moved(fpcr, x) == if ModeOf(fpcr) in {Nearest, Up} then Scale(1, 16384) else Scale(0xff_ffff, 104)
    ensures x <= -Scale(1, 128) ==>
              Moved(fpcr, x) == if ModeOf(fpcr) in {Nearest, Down} then -Scale(1, 16384) else -Scale(0xff_ffff, 104)
  {
    hide IsDouble, Scale, InRegister, BitsOf, ModeOf, Pow2;
    if Scale(1, 128) <= x {
      OverflowUpwards(FormatOf(fpcr), ModeOf(fpcr), x);
    }
    if x <= -Scale(1, 128) {
      DoubleMirrored(x);
      OverflowUpwards(FormatOf(fpcr), Opposite(ModeOf(fpcr)), -x);
      var m, i := DoubleInUnits(FormatOf(fpcr), x);
      InRegisterMirrored(FormatOf(fpcr), ModeOf(fpcr), x);
    }
  }

  /** And begins at 2^-149: a smaller positive double becomes that or zero. */
  lemma SingleUnderflow(fpcr: bv32, x: real)
    requires BitsOf(fpcr) == 24 && IsDouble(x) && 0.0 < x < Scale(1, -149)
    ensures Moved(fpcr, x) == match ModeOf(fpcr)
                              case Nearest => if x <= Scale(1, -150) then 0.0 else Scale(1, -149)
                              case Up => Scale(1, -149)
                              case _ => 0.0
  {
    hide IsDouble, Scale, InRegister, BitsOf, ModeOf, Pow2;
    UnderflowUpwards(FormatOf(fpcr), ModeOf(fpcr), x);
  }

  lemma Powers()
    ensures Pow2(1) == 2 && Pow2(2) == 4 && Pow2(7) == 0x80 && Pow2(8) == 0x100
    ensures Pow2(24) == 0x100_0000 && Pow2(25) == 0x200_0000 && Pow2(26) == 0x400_0000
    ensures Pow2(30) == 0x4000_0000 && Pow2(31) == 0x8000_0000 && Pow2(32) == 0x1_0000_0000
    ensures Pow2(52) == 0x10_0000_0000_0000 && Pow2(53) == 0x20_0000_0000_0000
  {
    assert Pow2(16) == 0x1_0000;
    assert Pow2(40) == 0x100_0000_0000;
    assert Pow2(48) == 0x1_0000_0000_0000;
  }

  /** Rounding at float precision, to nearest, when the last bit weighs 2^e. */
  lemma SingleNearest(z: int, e: nat, n: int)
    requires Magnitude(z) < Pow2(24 + e) && (e == 0 || Pow2(24 + e - 1) <= Magnitude(z))
    requires NearestEven(z as real / Pow2(e) as real) == n
    ensures RoundToBits(24, Nearest, z) == n * Pow2(e)
  {
    hide Pow2;
    ExponentIs(24, 0, Magnitude(z), e);
  }

  /** The functions in steps. */
  lemma Floor060Steps(fpcr: bv32, x: real)
    ensures var t := Truncate(x) as real;
      Floor060(fpcr, x) == if t <= Moved(fpcr, x) then t else Moved(fpcr, t - 1.0)
  {
  }

  lemma Ceil060Steps(fpcr: bv32, x: real)
    ensures var t := Truncate(x) as real;
      Ceil060(fpcr, x) == if t >= Moved(fpcr, x) then t else Moved(fpcr, t + 1.0)
  {
  }

  /** The control register 0x40 selects float precision and rounding to nearest. */
  lemma SingleControl()
    ensures BitsOf(0x40) == 24 && ModeOf(0x40) == Nearest
  {
  }

  /** At float precision, to nearest: the floor of 2^24 + 1, an integer, comes out as 2^24, because the
      copy it is compared with has been rounded below it. */
  lemma FloorOfIntegerLost()
    ensures IsDouble(16777217.0) && Floor(16777217.0) == 16777217
    ensures Floor060(0x40, 16777217.0) == 16777216.0
  {
    hide Pow2, Moved, RoundToBits, Floor060, BitsOf, ModeOf, IsDouble, Rounded;
    Powers();
    SingleControl();
    DoubleIs(16777217, 0);
    assert Scale(16777217, 0) == 16777217.0;
    SingleNearest(16777217, 1, 8388608);
    SingleNearest(16777216, 1, 8388608);
    RoundedInteger(0x40, 16777217);
    RoundedInteger(0x40, 16777216);
    Floor060Steps(0x40, 16777217.0);
    MovedInteger(0x40, 16777217);
    MovedInteger(0x40, 16777216);
  }

  lemma MovedInteger(fpcr: bv32, n: int)
    ensures Moved(fpcr, n as real) == Rounded(fpcr, n)
  {
  }

  lemma DoubleIs(m: int, e: int)
    requires Magnitude(m) < Pow2(53) && -1074 <= e <= 971
    ensures IsDouble(Scale(m, e))
  {
    hide Pow2, Magnitude, Scale;
    assert DoubleParts(m, e);
  }

  /** The floor of -(1 + 2^-30) comes out as -1: the copy has been rounded up to -1, so nothing is
      subtracted. */
  lemma FloorOfFractionLost()
    ensures var x := -1.0 - 1.0 / 1073741824.0;
      IsDouble(x) && Floor(x) == -2 && FitsBits(24, -2) && Floor060(0x40, x) == -1.0
  {
    hide Pow2, Moved, RoundToBits, Floor060, BitsOf, ModeOf, IsDouble, Rounded, FitsBits, Scale;
    Powers();
    SingleControl();
    var x := -1.0 - 1.0 / 1073741824.0;
    DoubleIs(-1073741825, -30);
    ThirtyHalvings(-1073741825);
    ThirtyHalvings(-1073741824);
    SingleNearest(-1073741825, 7, -8388608);
    MovedScaled(0x40, -1073741825, -30);
    Floor060Steps(0x40, x);
    TwoFits();
  }

  lemma TwoFits()
    ensures FitsBits(24, -2)
  {
    hide Pow2;
    Powers();
    ExponentIs(24, 0, 2, 0);
    FitsWhole(24, -2);
  }

  lemma ThirtyHalvings(m: int)
    ensures Scale(m, -30) == m as real / 1073741824.0
  {
    hide Scale, Pow2;
    Powers();
    ScaleInUnits(m, -30, 30);
    Pow2Zero();
  }

  lemma Pow2Zero()
    ensures Pow2(0) == 1
  {
  }

  /** And the floor of -(2^24 + 1/2) as -2^24. */
  lemma FloorLostAtFloatPrecision()
    ensures IsDouble(-16777216.5) && BitsOf(0x40) == 24
    ensures Floor(-16777216.5) == -16777217 && Floor060(0x40, -16777216.5) == -16777216.0
  {
    hide Pow2, Moved, RoundToBits, Floor060, BitsOf, ModeOf, IsDouble, Rounded;
    Powers();
    SingleControl();
    DoubleIs(-33554433, -1);
    assert Scale(-33554433, -1) == -16777216.5 && Scale(-33554432, -1) == -16777216.0;
    SingleNearest(-33554433, 2, -8388608);
    MovedScaled(0x40, -33554433, -1);
    Floor060Steps(0x40, -16777216.5);
  }

  /** The integer n comes out of the conversion through a 32-bit integer as it is: it fits both the
      integer and the significand - or it is 2^31 at float precision, where the saturated 2^31 - 1 is
      rounded up to it again. */
  predicate Survives(bits: nat, mode: Mode, n: int) {
    || (Fits32(n) && FitsBits(bits, n))
    || (bits == 24 && n == 0x8000_0000 && mode in {Nearest, Up})
  }

  /** At double and extended precision only the 32 bits count. */
  lemma SurvivesWide(fpcr: bv32, mode: Mode, n: int)
    requires BitsOf(fpcr) != 24
    ensures Survives(BitsOf(fpcr), mode, n) <==> Fits32(n)
  {
    hide FitsBits, BitsOf;
    if Fits32(n) {
      Integer32IsSmall(n);
      SmallFitsOf(fpcr, n);
    }
  }

  /** A conversion through a 32-bit integer gives the rounded value exactly when that survives it,
      at every precision and in every mode. Out of range it gives the least integer, or the greatest
      one, which float precision rounds once more. */
  lemma ThroughIntegerExact(fpcr: bv32, x: real)
    ensures var n := ToIntegral(ModeOf(fpcr), x);
      && (ThroughInteger(fpcr, x) == n as real <==> Survives(BitsOf(fpcr), ModeOf(fpcr), n))
      && (n < -0x8000_0000 ==> ThroughInteger(fpcr, x) == -2147483648.0)
      && (n >= 0x8000_0000 ==>
            ThroughInteger(fpcr, x) == if BitsOf(fpcr) != 24 then 2147483647.0
                                       else if ModeOf(fpcr) in {Nearest, Up} then 2147483648.0
                                       else 2147483520.0)
  {
    hide ToIntegral, FitsBits, BitsOf, ModeOf, Moved, Pow2, Magnitude;
    var n := ToIntegral(ModeOf(fpcr), x);
    if Fits32(n) {
      Integer32IsSmall(n);
      RoundedExact(fpcr, n);
    } else if n < 0 {
      LowestStays(fpcr);
    } else {
      HighestRounded(fpcr);
    }
  }

  /** The least 32-bit integer is a power of two and fits every significand. */
  lemma LowestStays(fpcr: bv32)
    ensures Rounded(fpcr, -0x8000_0000) == -2147483648.0
    ensures FitsBits(24, 0x8000_0000)
  {
    hide Pow2, Magnitude, Moved, FitsBits;
    Integer32IsSmall(-0x8000_0000);
    RoundedExact(fpcr, -0x8000_0000);
    if BitsOf(fpcr) == 24 {
      PowerFitsSingle();
    } else {
      SmallFitsOf(fpcr, -0x8000_0000);
    }
    PowerFitsSingle();
  }

  lemma PowerFitsSingle()
    ensures FitsBits(24, 0x8000_0000) && FitsBits(24, -0x8000_0000)
  {
    hide Pow2;
    Powers();
    ExponentIs(24, 0, 0x8000_0000, 8);
  }

  /** The greatest one is rounded at float precision, to nearest or upwards just out of range. */
  lemma HighestRounded(fpcr: bv32)
    ensures var r := Rounded(fpcr, 0x7fff_ffff);
      r == if BitsOf(fpcr) != 24 then 2147483647.0
           else if ModeOf(fpcr) in {Nearest, Up} then 2147483648.0
           else 2147483520.0
  {
    hide Pow2, Magnitude, Moved, FitsBits, RoundToBits;
    Integer32IsSmall(0x7fff_ffff);
    if BitsOf(fpcr) == 24 {
      RoundedInteger(fpcr, 0x7fff_ffff);
      SingleHighest(ModeOf(fpcr));
    } else {
      RoundedExact(fpcr, 0x7fff_ffff);
      SmallFitsOf(fpcr, 0x7fff_ffff);
    }
  }

  lemma SingleHighest(mode: Mode)
    ensures RoundToBits(24, mode, 0x7fff_ffff) == if mode in {Nearest, Up} then 0x8000_0000 else 0x7fff_ff80
  {
    hide Pow2;
    Powers();
    ExponentIs(24, 0, 0x7fff_ffff, 7);
    assert 0x7fff_ffff as real / 128 as real == 16777215.9921875;
    assert ToIntegral(mode, 16777215.9921875) == if mode in {Nearest, Up} then 0x100_0000 else 0xff_ffff;
  }

  lemma Integer32IsSmall(z: int)
    requires -0x8000_0000 <= z < 0x8000_0000
    ensures Magnitude(z) <= Pow2(52)
  {
    hide Pow2;
    Powers();
  }

  /** The 68060 versions of trunc and nearbyint are one instruction each. */
  function Trunc060(x: real): real {
    Truncate(x) as real
  }

  function Nearbyint060(fpcr: bv32, x: real): real {
    ToIntegral(ModeOf(fpcr), x) as real
  }

  /** For the floor and the ceiling of a double, where one of the versions is right they agree exactly
      when both are; at double and extended precision that is exactly when the result fits 32 bits.
      For truncation and nearbyint they agree exactly when the result survives the conversion. */
  lemma VersionsAgree(fpcr: bv32, x: real)
    requires IsDouble(x)
    ensures var bits, n := BitsOf(fpcr), Floor(x);
      && (bits != 24 ==> (ThroughInteger(FloorControl(fpcr), x) == Floor060(fpcr, x) <==> Fits32(n)))
      && (FloorRight(fpcr, x) || Survives(bits, Down, n) ==>
            (ThroughInteger(FloorControl(fpcr), x) == Floor060(fpcr, x)
             <==> FloorRight(fpcr, x) && Survives(bits, Down, n)))
    ensures var bits, n := BitsOf(fpcr), Ceiling(x);
      && (bits != 24 ==> (ThroughInteger(CeilControl(fpcr), x) == Ceil060(fpcr, x) <==> Fits32(n)))
      && (CeilRight(fpcr, x) || Survives(bits, Up, n) ==>
            (ThroughInteger(CeilControl(fpcr), x) == Ceil060(fpcr, x)
             <==> CeilRight(fpcr, x) && Survives(bits, Up, n)))
    ensures ThroughInteger(TruncControl(fpcr), x) == Trunc060(x) <==> Survives(BitsOf(fpcr), Zero, Truncate(x))
    ensures ThroughInteger(fpcr, x) == Nearbyint060(fpcr, x)
            <==> Survives(BitsOf(fpcr), ModeOf(fpcr), ToIntegral(ModeOf(fpcr), x))
  {
    hide ThroughInteger, Floor060, Ceil060, CeilControl, FloorControl, TruncControl, ModeOf, BitsOf;
    hide FloorRight, CeilRight, Survives, IsDouble, OperandHeld;
    Controls(fpcr);
    Floor060Exact(fpcr, x);
    Ceil060Exact(fpcr, x);
    ThroughIntegerExact(FloorControl(fpcr), x);
    ThroughIntegerExact(CeilControl(fpcr), x);
    ThroughIntegerExact(TruncControl(fpcr), x);
    ThroughIntegerExact(fpcr, x);
    if BitsOf(fpcr) != 24 {
      SurvivesWide(fpcr, Down, Floor(x));
      SurvivesWide(fpcr, Up, Ceiling(x));
    }
  }

  /** A conversion that goes wrong at every precision, and one that comes out right although the
      integer does not fit. */
  lemma ThroughIntegerLimits(fpcr: bv32)
    ensures ThroughInteger(FloorControl(fpcr), 2147483648.0) != 2147483648.0
    ensures !Fits32(0x8000_0000) && ThroughInteger(0x40, 2147483648.0) == 2147483648.0
  {
    hide Moved, ThroughInteger, FloorControl, FitsBits;
    Controls(fpcr);
    IntegralOfInteger(Down, 0x8000_0000);
    IntegralOfInteger(Nearest, 0x8000_0000);
    ThroughIntegerExact(FloorControl(fpcr), 2147483648.0);
    ThroughIntegerExact(0x40, 2147483648.0);
  }
}
