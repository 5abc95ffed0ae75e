/** The arithmetic of the FPU as far as floor, ceil and their relatives need it: rounding modes and
    precisions as the control register encodes them, rounding a real number to an integer, and
    rounding an integer to the significand of the selected precision. */
module FpuArithmetic {
  datatype Mode = Nearest | Zero | Down | Up

  /** Bits 5 and 4 of the control register. */
  function RoundField(fpcr: bv32): bv32 {
    fpcr & 0x30
  }

  /** Bits 7 and 6 of the control register. */
  function PrecField(fpcr: bv32): bv32 {
    fpcr & 0xc0
  }

  function ModeOf(fpcr: bv32): Mode {
    if RoundField(fpcr) == 0x00 then Nearest
    else if RoundField(fpcr) == 0x10 then Zero
    else if RoundField(fpcr) == 0x20 then Down
    else Up
  }

  /** Significand bits of the selected precision: extended, single or double. The fourth code is
      undefined and taken as extended here. */
  function BitsOf(fpcr: bv32): nat {
    if PrecField(fpcr) == 0x40 then 24 else if PrecField(fpcr) == 0x80 then 53 else 64
  }

  // ---------- rounding a real to an integer ----------

  function Floor(x: real): int {
    x.Floor
  }

  function Ceiling(x: real): int {
    -((-x).Floor)
  }

  function Truncate(x: real): int {
    if x >= 0.0 then Floor(x) else Ceiling(x)
  }

  function NearestEven(x: real): int {
    var f := Floor(x);
    var d := x - f as real;
    if d < 0.5 || (d == 0.5 && f % 2 == 0) then f else f + 1
  }

  function ToIntegral(mode: Mode, x: real): int {
    match mode
    case Nearest => NearestEven(x)
    case Zero => Truncate(x)
    case Down => Floor(x)
    case Up => Ceiling(x)
  }

  /** The floor is the greatest integer at most x. */
  lemma FloorIsGreatest(x: real, n: int)
    ensures Floor(x) as real <= x
    ensures n as real <= x ==> n <= Floor(x)
  {
  }

  /** The ceiling is the least integer at least x. */
  lemma CeilingIsLeast(x: real, n: int)
    ensures x <= Ceiling(x) as real
    ensures x <= n as real ==> Ceiling(x) <= n
  {
    assert (-n) as real == -(n as real);
    FloorIsGreatest(-x, -n);
    assert (-Floor(-x)) as real == -(Floor(-x) as real);
  }

  function Distance(n: int, x: real): real {
    if n as real >= x then n as real - x else x - n as real
  }

  /** No integer is nearer than the one rounding to nearest gives, and a tie gives the even one. */
  lemma NearestIsNearest(x: real, n: int)
    ensures Distance(NearestEven(x), x) <= Distance(n, x)
    ensures n != NearestEven(x) && Distance(n, x) == Distance(NearestEven(x), x) ==> NearestEven(x) % 2 == 0
  {
    var f := Floor(x);
    if n < f {
      assert n as real <= (f - 1) as real;
    } else if f + 1 < n {
      assert (f + 2) as real <= n as real;
    }
  }

  /** Truncating keeps the sign and drops less than one. */
  lemma TruncateIsTowardsZero(x: real)
    ensures Integral(Truncate(x) as real)
    ensures x >= 0.0 ==> 0.0 <= Truncate(x) as real <= x < Truncate(x) as real + 1.0
    ensures x <= 0.0 ==> Truncate(x) as real - 1.0 < x <= Truncate(x) as real <= 0.0
  {
    CeilingIsLeast(x, 0);
  }

  /** Every mode gives one of the two integers next to x, or x itself. */
  lemma IntegralIsClose(mode: Mode, x: real)
    ensures -1.0 < ToIntegral(mode, x) as real - x < 1.0
  {
    CeilingIsLeast(x, Floor(x) + 1);
  }

  // ---------- rounding an integer to a significand ----------

  function Pow2(k: nat): (p: nat)
    ensures p > 0
  {
    if k == 0 then 1 else 2 * Pow2(k - 1)
  }

  lemma Pow2Grows(i: nat, j: nat)
    requires i < j
    ensures Pow2(i) < Pow2(j)
    decreases j
  {
    if i + 1 == j {
    } else {
      Pow2Grows(i, j - 1);
    }
  }

  lemma {:induction false} Pow2Sum(i: nat, j: nat)
    ensures Pow2(i + j) == Pow2(i) * Pow2(j)
  {
    if i == 0 {
    } else {
      Pow2Sum(i - 1, j);
      assert Pow2(i + j) == 2 * (Pow2(i - 1) * Pow2(j));
      assert 2 * (Pow2(i - 1) * Pow2(j)) == 2 * Pow2(i - 1) * Pow2(j);
    }
  }

  /** The exponent of the last significand bit of a number of magnitude a: the least one at which the
      significand fits the given number of bits, and at least the least the format has. */
  function Exponent(bits: nat, least: nat, a: nat): (e: nat)
    ensures least <= e && a < Pow2(bits + e)
    ensures e == least || Pow2(bits + e - 1) <= a
    decreases a - Pow2(bits + least)
  {
    if a < Pow2(bits + least) then least else Exponent(bits, least + 1, a)
  }

  /** There is no other such exponent. */
  lemma ExponentIs(bits: nat, least: nat, a: nat, e: nat)
    requires least <= e && a < Pow2(bits + e) && (e == least || Pow2(bits + e - 1) <= a)
    ensures Exponent(bits, least, a) == e
  {
    hide Pow2, Exponent;
    var f := Exponent(bits, least, a);
    if e < f {
      Pow2Ordered(bits + e, bits + f - 1);
    } else if f < e {
      Pow2Ordered(bits + f, bits + e - 1);
    }
  }

  lemma Pow2Ordered(i: nat, j: nat)
    requires i <= j
    ensures Pow2(i) <= Pow2(j)
  {
    if i < j {
      Pow2Grows(i, j);
    }
  }

  function Magnitude(z: int): nat {
    if z < 0 then -z else z
  }

  /** The weight of the last significand bit of z. */
  function Weight(bits: nat, least: nat, z: int): (q: nat)
    ensures 0 < q
  {
    Pow2(Exponent(bits, least, Magnitude(z)))
  }

  /** Rounding z to a significand of the given number of bits, the last one of the least weight or
      more. */
  function RoundTo(bits: nat, least: nat, mode: Mode, z: int): int {
    var q := Weight(bits, least, z);
    ToIntegral(mode, z as real / q as real) * q
  }

  predicate Fits(bits: nat, least: nat, z: int) {
    z % Weight(bits, least, z) == 0
  }

  /** Likewise to an integer significand. */
  function RoundToBits(bits: nat, mode: Mode, z: int): int {
    RoundTo(bits, 0, mode, z)
  }

  predicate FitsBits(bits: nat, z: int) {
    Fits(bits, 0, z)
  }

  lemma IntegralOfInteger(mode: Mode, n: int)
    ensures ToIntegral(mode, n as real) == n
  {
    assert (-n) as real == -(n as real);
  }

  lemma Factored(r: int, d: int, q: int)
    ensures r * q - d * q == (r - d) * q
  {
  }

  lemma BigMultiple(e: int, q: int)
    requires 0 < q && e != 0
    ensures e * q >= q || e * q <= -q
  {
    if e > 0 {
      Factored(e, 1, q);
      assert (e - 1) * q >= 0;
    } else {
      Factored(e, -1, q);
      assert (e + 1) * q <= 0;
    }
  }

  lemma MultipleHasNoRest(r: int, q: int, d: int, m: int)
    requires 0 <= m < q && r * q == d * q + m
    ensures m == 0
  {
    Factored(r, d, q);
    if r != d {
      BigMultiple(r - d, q);
    }
  }

  lemma WholeQuotient(k: int, q: int)
    requires 0 < q
    ensures (k * q) as real / q as real == k as real
  {
    assert (k * q) as real == k as real * q as real;
  }

  /** Rounding is exact exactly for what fits, in every mode. */
  lemma RoundingExact(bits: nat, least: nat, mode: Mode, z: int)
    ensures RoundTo(bits, least, mode, z) == z <==> Fits(bits, least, z)
  {
    hide ToIntegral, Weight;
    var q := Weight(bits, least, z);
    var k, m := z / q, z % q;
    assert z == k * q + m;
    if m == 0 {
      WholeQuotient(k, q);
      IntegralOfInteger(mode, k);
    } else {
      var r := ToIntegral(mode, z as real / q as real);
      if r * q == z {
        MultipleHasNoRest(r, q, k, m);
      }
    }
  }

  lemma ProductPositive(d: real, w: real, p: real)
    requires 0.0 < d && 0.0 < w && p == d * w
    ensures 0.0 < p
  {
  }

  /** Scaling two numbers less than one apart by w leaves them less than w apart. */
  lemma ScaledApart(a: real, b: real, w: real, aw: real, bw: real)
    requires a < b + 1.0 && 0.0 < w && aw == a * w && bw == b * w
    ensures aw < bw + w
  {
    ProductPositive(b + 1.0 - a, w, bw + w - aw);
  }

  lemma ScaledOrder(a: real, b: real, w: real, aw: real, bw: real)
    requires a <= b && 0.0 < w && aw == a * w && bw == b * w
    ensures aw <= bw
  {
    if a < b {
      ProductPositive(b - a, w, bw - aw);
    }
  }

  lemma QuotientTimes(z: real, q: real)
    requires 0.0 < q
    ensures z / q * q == z
  {
  }

  lemma ProductAsReal(n: int, q: int)
    ensures (n * q) as real == n as real * q as real
  {
  }

  lemma ScaledBack(n: int, z: int, q: nat)
    requires 0 < q && -1.0 < n as real - z as real / q as real < 1.0
    ensures n * q - z < q && z - n * q < q
    ensures n as real <= z as real / q as real ==> n * q <= z
    ensures z as real / q as real <= n as real ==> z <= n * q
  {
    QuotientTimes(z as real, q as real);
    ProductAsReal(n, q);
    var y, w, nw := z as real / q as real, q as real, (n * q) as real;
    ScaledApart(n as real, y, w, nw, z as real);
    ScaledApart(y, n as real, w, z as real, nw);
    if n as real <= y {
      ScaledOrder(n as real, y, w, nw, z as real);
    }
    if y <= n as real {
      ScaledOrder(y, n as real, w, z as real, nw);
    }
  }

  /** Rounding moves a number by less than the weight of its last bit, to a multiple of it, and in
      the directed modes only in their direction. */
  lemma RoundingClose(bits: nat, least: nat, mode: Mode, z: int)
    ensures var r, q := RoundTo(bits, least, mode, z), Weight(bits, least, z);
      && r - z < q && z - r < q && r % q == 0
      && (mode == Down ==> r <= z) && (mode == Up ==> z <= r)
  {
    hide Weight;
    var q := Weight(bits, least, z);
    var y := z as real / q as real;
    var n := ToIntegral(mode, y);
    IntegralIsClose(mode, y);
    CeilingIsLeast(y, n);
    hide ToIntegral;
    ScaledBack(n, z, q);
    BigMultipleRest(n, q);
  }

  lemma BigMultipleRest(n: int, q: nat)
    requires 0 < q
    ensures n * q % q == 0
  {
    var d, m := n * q / q, n * q % q;
    assert n * q == d * q + m;
    MultipleHasNoRest(n, q, d, m);
  }

  /** Everything up to 2^53 fits in a double significand, and in an extended one. */
  lemma SmallFits(bits: nat, z: int)
    requires 53 <= bits && Magnitude(z) <= Pow2(52)
    ensures FitsBits(bits, z)
  {
    hide Pow2;
    Pow2Grows(52, bits);
    ExponentIs(bits, 0, Magnitude(z), 0);
    FitsWhole(bits, z);
  }

  lemma FitsWhole(bits: nat, z: int)
    requires Exponent(bits, 0, Magnitude(z)) == 0
    ensures FitsBits(bits, z)
  {
  }

  // ---------- doubles ----------

  /** m * 2^e. */
  function Scale(m: int, e: int): real
    decreases if e < 0 then -e else e
  {
    if e == 0 then m as real
    else if e > 0 then 2.0 * Scale(m, e - 1)
    else Scale(m, e + 1) / 2.0
  }

  /** A finite double: a significand of 53 bits and an exponent of the format. */
  ghost predicate IsDouble(x: real) {
    exists m: int, e: int :: DoubleParts(m, e) && x == Scale(m, e)
  }

  predicate DoubleParts(m: int, e: int) {
    Magnitude(m) < Pow2(53) && -1074 <= e <= 971
  }

  predicate Integral(x: real) {
    x == Floor(x) as real
  }

  lemma {:induction false} ScaledUpIsIntegral(m: int, e: nat) returns (n: int)
    ensures Scale(m, e) == n as real
  {
    n := m;
    if e > 0 {
      n := ScaledUpIsIntegral(m, e - 1);
      n := 2 * n;
    }
  }

  lemma {:induction false} ScaledDownIsSmall(m: int, e: int)
    requires e < 0
    ensures -(Magnitude(m) as real) / 2.0 <= Scale(m, e) <= Magnitude(m) as real / 2.0
    decreases -e
  {
    if e < -1 {
      ScaledDownIsSmall(m, e + 1);
    }
  }

  /** A double that is not integral is below 2^52 in magnitude. */
  lemma NonIntegralIsSmall(x: real)
    requires IsDouble(x) && !Integral(x)
    ensures -(Pow2(52) as real) < x < Pow2(52) as real
  {
    var m: int, e: int :| DoubleParts(m, e) && x == Scale(m, e);
    if e >= 0 {
      var n := ScaledUpIsIntegral(m, e);
    } else {
      ScaledDownIsSmall(m, e);
      assert Pow2(53) == 2 * Pow2(52);
    }
  }
}
