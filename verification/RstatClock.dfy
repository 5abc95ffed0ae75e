/** The clock-tick arithmetic of the statistics service. */
module RstatClock {
  import opened Words

  const MILLION := 1_000_000

  /** C's division by a million, which drops the fraction towards zero. */
  function PerMillion(a: int): (q: int)
    ensures 0 <= a ==> 1_000_000 * q <= a < 1_000_000 * (q + 1)
    ensures a <= 0 ==> 1_000_000 * (q - 1) < a <= 1_000_000 * q
  {
    if 0 <= a then a / 1_000_000 else -(-a / 1_000_000)
  }

  /** A point in time, with its microseconds below a million when it is proper. */
  datatype Timeval = Timeval(sec: int, usec: int)

  predicate Proper(t: Timeval) {
    0 <= t.usec < MILLION
  }

  /** What is subtracted from the interrupt count: hz ticks a second since boot. */
  function Ticks(hz: int, now: Timeval, boot: Timeval): int {
    hz * (now.sec - boot.sec) + PerMillion(hz * (now.usec - boot.usec))
  }

  /** Time since boot in microseconds. */
  function Elapsed(now: Timeval, boot: Timeval): int {
    (now.sec - boot.sec) * MILLION + now.usec - boot.usec
  }

  lemma PerMillionClose(a: int)
    ensures -MILLION < PerMillion(a) * MILLION - a < MILLION
  {
  }

  lemma PerMillionMonotone(a: int, c: int)
    requires a <= c
    ensures PerMillion(a) <= PerMillion(c)
  {
  }

  /** Adding k millions adds k at most: at a change of sign the dropped fractions differ. */
  lemma PerMillionShift(a: int, k: nat)
    ensures PerMillion(a + k * MILLION) <= PerMillion(a) + k
  {
  }

  /** The count is within one tick of hz times the elapsed time, on either side. */
  lemma TicksClose(hz: nat, now: Timeval, boot: Timeval)
    ensures var elapsed := 1_000_000 * (now.sec - boot.sec) + now.usec - boot.usec;
      elapsed == Elapsed(now, boot) && -1_000_000 < 1_000_000 * Ticks(hz, now, boot) - hz * elapsed < 1_000_000
  {
    var ds, du := now.sec - boot.sec, now.usec - boot.usec;
    PerMillionClose(hz * du);
    assert Elapsed(now, boot) == ds * MILLION + du;
    assert hz * (ds * MILLION + du) == hz * ds * MILLION + hz * du;
  }

  lemma TimesOrdered(k: nat, a: int, b: int)
    requires a <= b
    ensures k * a <= k * b && k * b - k * a == k * (b - a)
  {
  }

  /** As the clock advances the count never decreases, across second boundaries too, where the
      microsecond difference drops and may turn negative. */
  lemma TicksMonotone(hz: nat, now: Timeval, later: Timeval, boot: Timeval)
    requires Proper(now) && Proper(later) && Proper(boot)
    requires Elapsed(now, boot) <= Elapsed(later, boot)
    ensures Ticks(hz, now, boot) <= Ticks(hz, later, boot)
  {
    hide PerMillion;
    var u, v := now.usec - boot.usec, later.usec - boot.usec;
    var s, t := now.sec - boot.sec, later.sec - boot.sec;
    if s == t {
      TimesOrdered(hz, u, v);
      PerMillionMonotone(hz * u, hz * v);
    } else {
      assert s + 1 <= t && u <= v + MILLION;
      TimesOrdered(hz, u, v + MILLION);
      TimesOrdered(hz, s + 1, t);
      assert hz * (v + MILLION) == hz * v + hz * MILLION && hz * (s + 1) == hz * s + hz;
      PerMillionMonotone(hz * u, hz * v + hz * MILLION);
      PerMillionShift(hz * v, hz);
    }
  }

  // ---------- 32-bit ----------

  predicate IsInt32(x: int) {
    -0x8000_0000 <= x < 0x8000_0000
  }

  /** The value of an int computation, as the machine wraps it. */
  function Int32(x: int): (r: int)
    ensures IsInt32(r)
    ensures IsInt32(x) ==> r == x
  {
    (x + 0x8000_0000) % 0x1_0000_0000 - 0x8000_0000
  }

  /** The expression of the source, each operation in 32 bits. */
  function Ticks32(hz: int, now: Timeval, boot: Timeval): int {
    Int32(Int32(hz * Int32(now.sec - boot.sec)) + PerMillion(Int32(hz * Int32(now.usec - boot.usec))))
  }

  predicate NoOverflow(hz: int, now: Timeval, boot: Timeval) {
    && IsInt32(now.sec - boot.sec) && IsInt32(hz * (now.sec - boot.sec))
    && IsInt32(now.usec - boot.usec) && IsInt32(hz * (now.usec - boot.usec))
    && IsInt32(Ticks(hz, now, boot))
  }

  lemma Ticks32Exact(hz: int, now: Timeval, boot: Timeval)
    requires NoOverflow(hz, now, boot)
    ensures Ticks32(hz, now, boot) == Ticks(hz, now, boot)
  {
    hide PerMillion, Int32;
  }

  lemma Int32Wraps(x: int) returns (q: int)
    ensures Int32(x) == x - TWO32 * q
  {
    q := (x + TWO31) / TWO32;
  }

  lemma WrapShift(x: int, y: int, q: int)
    requires x == y + TWO32 * q
    ensures Wrap(x) == Wrap(y)
  {
    assert x / TWO32 == y / TWO32 + q;
  }

  lemma WrapDiffers(x: int, y: int)
    requires 0 < x - y < TWO32 || 0 < y - x < TWO32
    ensures Wrap(x) != Wrap(y)
  {
    var p, q := x / TWO32, y / TWO32;
    assert x - y == TWO32 * (p - q) + Wrap(x) - Wrap(y);
  }

  /** However long the machine has been up, the expression is, modulo 2^32, the exact count with the
      microsecond product wrapped. */
  lemma Ticks32Modulo(hz: int, now: Timeval, boot: Timeval) returns (q: int)
    requires IsInt32(now.usec - boot.usec)
    ensures Ticks32(hz, now, boot)
            == hz * (now.sec - boot.sec) + PerMillion(Int32(hz * (now.usec - boot.usec))) + TWO32 * q
  {
    hide PerMillion, Int32;
    var ds := now.sec - boot.sec;
    var rest := PerMillion(Int32(hz * (now.usec - boot.usec)));
    var q1 := Int32Wraps(ds);
    var q2 := Int32Wraps(hz * Int32(ds));
    var q3 := Int32Wraps(Int32(hz * Int32(ds)) + rest);
    q := -(hz * q1 + q2 + q3);
    assert hz * Int32(ds) == hz * ds - TWO32 * (hz * q1);
  }

  /** A product that does not fit loses between one and 2^32 ticks. */
  lemma LostTicks(a: int)
    requires !IsInt32(a) && -TWO31 * 999_999 <= a <= TWO31 * 999_999
    ensures var lost := PerMillion(a) - PerMillion(Int32(a)); 0 < lost < TWO32 || 0 < -lost < TWO32
  {
    hide PerMillion, Int32;
    var k := Int32Wraps(a);
    PerMillionClose(a);
    PerMillionClose(Int32(a));
    assert k != 0;
    assert -500_000 <= k <= 500_000;
  }

  lemma ProductBound(hz: int, du: int)
    requires IsInt32(hz) && -MILLION < du < MILLION
    ensures -TWO31 * 999_999 <= hz * du <= TWO31 * 999_999
  {
    var h, d := if hz < 0 then -hz else hz, if du < 0 then -du else du;
    TimesOrdered(h, d, 999_999);
    TimesOrdered(999_999, h, TWO31);
    assert hz * du == h * d || hz * du == -(h * d);
  }

  /** The product of the tick rate and the microseconds, the one overflow that shows. */
  predicate TicksFit(hz: int, now: Timeval, boot: Timeval) {
    IsInt32(hz * (now.usec - boot.usec))
  }

  /** The interrupts without the clock's own, as the code stores them and as they should be. */
  function StoredIntr(intr: int, hz: int, now: Timeval, boot: Timeval): u32 {
    Wrap(intr - Ticks32(hz, now, boot))
  }

  function ExactIntr(intr: int, hz: int, now: Timeval, boot: Timeval): u32 {
    Wrap(intr - Ticks(hz, now, boot))
  }

  /** What is left of the interrupt count in its 32-bit word is what the exact count leaves, for any
      time since boot, as soon as the microsecond product fits; for proper clocks only then. */
  lemma IntrExact(intr: int, hz: int, now: Timeval, boot: Timeval)
    ensures IsInt32(now.usec - boot.usec) && TicksFit(hz, now, boot) ==>
              StoredIntr(intr, hz, now, boot) == ExactIntr(intr, hz, now, boot)
    ensures IsInt32(hz) && Proper(now) && Proper(boot) ==>
              (StoredIntr(intr, hz, now, boot) == ExactIntr(intr, hz, now, boot) <==> TicksFit(hz, now, boot))
  {
    hide PerMillion, Int32, Ticks32, Wrap;
    var du := now.usec - boot.usec;
    if IsInt32(du) {
      var q := Ticks32Modulo(hz, now, boot);
      var wrapped := intr - hz * (now.sec - boot.sec) - PerMillion(Int32(hz * du));
      WrapShift(intr - Ticks32(hz, now, boot), wrapped, -q);
      if !IsInt32(hz * du) && IsInt32(hz) && Proper(now) && Proper(boot) {
        ProductBound(hz, du);
        LostTicks(hz * du);
        WrapDiffers(wrapped, intr - Ticks(hz, now, boot));
      }
    }
  }

  lemma SmallRateFits(hz: int, du: int)
    requires -2147 <= hz <= 2147 && -MILLION < du < MILLION
    ensures IsInt32(hz * du)
  {
    var h, d := if hz < 0 then -hz else hz, if du < 0 then -du else du;
    TimesOrdered(h, d, 999_999);
    assert hz * du == h * d || hz * du == -(h * d);
  }

  /** For every pair of proper clocks, and every interrupt count, the word is right exactly for tick
      rates up to 2147 a second. */
  lemma TickRates(hz: int)
    requires IsInt32(hz)
    ensures (forall intr: int, now: Timeval, boot: Timeval | Proper(now) && Proper(boot) ::
               StoredIntr(intr, hz, now, boot) == ExactIntr(intr, hz, now, boot))
            <==> -2147 <= hz <= 2147
  {
    hide StoredIntr, ExactIntr;
    if -2147 <= hz <= 2147 {
      forall intr: int, now: Timeval, boot: Timeval | Proper(now) && Proper(boot)
        ensures StoredIntr(intr, hz, now, boot) == ExactIntr(intr, hz, now, boot)
      {
        SmallRateFits(hz, now.usec - boot.usec);
        IntrExact(intr, hz, now, boot);
      }
    } else {
      var now, boot := Timeval(0, 999_999), Timeval(0, 0);
      IntrExact(0, hz, now, boot);
      assert !TicksFit(hz, now, boot);
      assert StoredIntr(0, hz, now, boot) != ExactIntr(0, hz, now, boot);
    }
  }

  /** For instance 2148 ticks a second and a microsecond difference of 999999. */
  lemma IntrLost(intr: int)
    ensures var now, boot := Timeval(0, 999_999), Timeval(0, 0);
      StoredIntr(intr, 2148, now, boot) != ExactIntr(intr, 2148, now, boot) == Wrap(intr - 2147)
  {
    hide Ticks32, Wrap;
    IntrExact(intr, 2148, Timeval(0, 999_999), Timeval(0, 0));
  }
}
