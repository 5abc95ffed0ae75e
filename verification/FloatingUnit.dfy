/** The FPU as an object: the inlined floor, ceil, trunc and nearbyint of both versions change its
    registers, and the fenv functions its control register. Then what runs of such calls keep. */
module FloatingUnit {
  import opened Options
  import opened FpuArithmetic
  import opened Fpu

  class Unit {
    var fp0: real
    var fp1: real
    var fpcr: bv32
    var d0: bv32
    var d1: bv32
    /** The fenv_t objects in memory, by address. */
    var env: map<int, bv32>

    constructor (control: bv32)
      ensures fpcr == control && env == map[]
    {
      fp0, fp1 := 0.0, 0.0;
      fpcr := control;
      d0, d1 := 0, 0;
      env := map[];
    }

    function Control(): Environment
      reads this
    {
      Environment(fpcr, env)
    }

    /** A move to the control register. */
    method LoadControl(v: bv32)
      modifies `fpcr
      ensures Control() == Environment(v, old(Control()).env)
    {
      fpcr := v;
    }

    /** Truncate, and add one unless that already is at least the operand, as the move to fp1 leaves
        it. */
    method Ceil060()
      modifies `fp0, `fp1
      ensures fp0 == Fpu.Ceil060(fpcr, old(fp0)) && fp1 == Moved(fpcr, old(fp0))
      ensures var t := Truncate(old(fp0)) as real;
        fp0 == if t >= Moved(fpcr, old(fp0)) then t else Moved(fpcr, t + 1.0)
      ensures var x := old(fp0);
        IsDouble(x) ==>
          && (BitsOf(fpcr) != 24 || OperandHeld(fpcr, x) ==> fp0 == Ceiling(x) as real)
          && (fp0 == Ceiling(x) as real <==> CeilRight(fpcr, x))
    {
      hide BitsOf, ModeOf, Moved, Truncate, CeilRight, OperandHeld, Fpu.Ceil060;
      Ceil060Steps(fpcr, fp0);
      if IsDouble(fp0) {
        Ceil060Exact(fpcr, fp0);
      }
      fp1 := Moved(fpcr, fp0);
      fp0 := Truncate(fp0) as real;
      if !(fp0 >= fp1) {
        fp0 := Moved(fpcr, fp0 + 1.0);
      }
    }

    /** Truncate, and subtract one unless that already is at most the operand, as the move to fp1
        leaves it. */
    method Floor060()
      modifies `fp0, `fp1
      ensures fp0 == Fpu.Floor060(fpcr, old(fp0)) && fp1 == Moved(fpcr, old(fp0))
      ensures var t := Truncate(old(fp0)) as real;
        fp0 == if t <= Moved(fpcr, old(fp0)) then t else Moved(fpcr, t - 1.0)
      ensures var x := old(fp0);
        IsDouble(x) ==>
          && (BitsOf(fpcr) != 24 || OperandHeld(fpcr, x) ==> fp0 == Floor(x) as real)
          && (fp0 == Floor(x) as real <==> FloorRight(fpcr, x))
    {
      hide BitsOf, ModeOf, Moved, Truncate, FloorRight, OperandHeld, Fpu.Floor060;
      Floor060Steps(fpcr, fp0);
      if IsDouble(fp0) {
        Floor060Exact(fpcr, fp0);
      }
      fp1 := Moved(fpcr, fp0);
      fp0 := Truncate(fp0) as real;
      if !(fp0 <= fp1) {
        fp0 := Moved(fpcr, fp0 - 1.0);
      }
    }

    /** The part of the operand between it and zero, in any mode and at any precision. */
    method Trunc060()
      modifies `fp0
      ensures fp0 == Fpu.Trunc060(old(fp0)) && Integral(fp0)
      ensures old(fp0) >= 0.0 ==> 0.0 <= fp0 <= old(fp0) < fp0 + 1.0
      ensures old(fp0) <= 0.0 ==> fp0 - 1.0 < old(fp0) <= fp0 <= 0.0
    {
      TruncateIsTowardsZero(fp0);
      fp0 := Truncate(fp0) as real;
    }

    /** The operand rounded in the current mode. */
    method Nearbyint060()
      modifies `fp0
      ensures fp0 == Fpu.Nearbyint060(fpcr, old(fp0)) && Integral(fp0)
      ensures fp0 == match ModeOf(fpcr)
                     case Nearest => NearestEven(old(fp0)) as real
                     case Zero => Truncate(old(fp0)) as real
                     case Down => Floor(old(fp0)) as real
                     case Up => Ceiling(old(fp0)) as real
      ensures -1.0 < fp0 - old(fp0) < 1.0
    {
      IntegralIsClose(ModeOf(fpcr), fp0);
      IntegralOfInteger(Down, ToIntegral(ModeOf(fpcr), fp0));
      fp0 := ToIntegral(ModeOf(fpcr), fp0) as real;
    }

    /** The operand as a 32-bit integer and back, under the control register as it is. */
    method ConvertThroughInteger()
      modifies `fp0
      ensures fp0 == ThroughInteger(fpcr, old(fp0))
    {
      var integer := Saturate(ToIntegral(ModeOf(fpcr), fp0));
      fp0 := Rounded(fpcr, integer);
    }

    method Ceil040()
      modifies `fp0, `fpcr, `d0, `d1
      ensures fpcr == old(fpcr) && Control() == Apply(old(Control()), Inlined)
      ensures fp0 == ThroughInteger(CeilControl(fpcr), old(fp0))
      ensures fp0 == Ceiling(old(fp0)) as real <==> Survives(BitsOf(fpcr), Up, Ceiling(old(fp0)))
      ensures Ceiling(old(fp0)) < -0x8000_0000 ==> fp0 == -2147483648.0
      ensures Ceiling(old(fp0)) >= 0x8000_0000 ==> fp0 == if BitsOf(fpcr) == 24 then 2147483648.0 else 2147483647.0
    {
      hide BitsOf, ModeOf, PrecField, RoundField, Survives, ThroughInteger;
      Controls(fpcr);
      ThroughIntegerExact(CeilControl(fpcr), fp0);
      d1 := fpcr;
      d0 := 0x30;
      d0 := d0 | d1;
      LoadControl(d0);
      ConvertThroughInteger();
      LoadControl(d1);
    }

    method Floor040()
      modifies `fp0, `fpcr, `d0, `d1
      ensures fpcr == old(fpcr) && Control() == Apply(old(Control()), Inlined)
      ensures fp0 == ThroughInteger(FloorControl(fpcr), old(fp0))
      ensures fp0 == Floor(old(fp0)) as real <==> Survives(BitsOf(fpcr), Down, Floor(old(fp0)))
      ensures Floor(old(fp0)) < -0x8000_0000 ==> fp0 == -2147483648.0
      ensures Floor(old(fp0)) >= 0x8000_0000 ==> fp0 == if BitsOf(fpcr) == 24 then 2147483520.0 else 2147483647.0
    {
      hide BitsOf, ModeOf, PrecField, RoundField, Survives, ThroughInteger;
      Controls(fpcr);
      ThroughIntegerExact(FloorControl(fpcr), fp0);
      d1 := fpcr;
      d0 := 0x20;
      d0 := d0 | d1;
      d0 := d0 & 0xffff_ffef;
      LoadControl(d0);
      ConvertThroughInteger();
      LoadControl(d1);
    }

    method Trunc040()
      modifies `fp0, `fpcr, `d0, `d1
      ensures fpcr == old(fpcr) && Control() == Apply(old(Control()), Inlined)
      ensures fp0 == ThroughInteger(TruncControl(fpcr), old(fp0))
      ensures fp0 == Truncate(old(fp0)) as real <==> Survives(BitsOf(fpcr), Zero, Truncate(old(fp0)))
      ensures Truncate(old(fp0)) < -0x8000_0000 ==> fp0 == -2147483648.0
      ensures Truncate(old(fp0)) >= 0x8000_0000 ==> fp0 == if BitsOf(fpcr) == 24 then 2147483520.0 else 2147483647.0
    {
      hide BitsOf, ModeOf, PrecField, RoundField, Survives, ThroughInteger;
      Controls(fpcr);
      ThroughIntegerExact(TruncControl(fpcr), fp0);
      d0 := 0x10;
      d1 := fpcr;
      d0 := d0 | d1;
      d0 := d0 & 0xffff_ffdf;
      LoadControl(d0);
      ConvertThroughInteger();
      LoadControl(d1);
    }

    method Nearbyint040()
      modifies `fp0
      ensures fp0 == ThroughInteger(fpcr, old(fp0))
      ensures var n := ToIntegral(ModeOf(fpcr), old(fp0));
        && (fp0 == n as real <==> Survives(BitsOf(fpcr), ModeOf(fpcr), n))
        && (n < -0x8000_0000 ==> fp0 == -2147483648.0)
        && (n >= 0x8000_0000 ==>
              fp0 == if BitsOf(fpcr) != 24 then 2147483647.0
                     else if ModeOf(fpcr) in {Nearest, Up} then 2147483648.0
                     else 2147483520.0)
    {
      ThroughIntegerExact(fpcr, fp0);
      ConvertThroughInteger();
    }

    method Fegetround() returns (r: bv32)
      modifies `d0, `d1
      ensures r == RoundField(fpcr) == fpcr & 0x30
    {
      d1 := fpcr;
      d0 := 0x30;
      d0 := d0 & d1;
      r := d0;
    }

    method Fegetprec() returns (r: bv32)
      modifies `d0
      ensures r == PrecField(fpcr) == fpcr & 0xc0
    {
      d0 := fpcr;
      d0 := d0 & 0xc0;
      r := d0;
    }

    /** The assembler code behind fesetround. */
    method AsmFesetround(mode: bv32) returns (r: bv32)
      modifies `fpcr, `d0, `d1
      ensures r == 0 && fpcr == WithRound(old(fpcr), mode)
    {
      d0 := mode;
      d1 := fpcr;
      d1 := d1 & 0xffff_ffcf;
      d1 := d1 | d0;
      fpcr := d1;
      d0 := 0;
      r := d0;
    }

    method Fesetround(mode: bv32) returns (r: bv32)
      modifies `fpcr, `d0, `d1
      ensures r == 0 && Control() == Apply(old(Control()), SetRound(mode))
      ensures ValidCall(SetRound(mode)) ==> RoundField(fpcr) == mode && PrecField(fpcr) == PrecField(old(fpcr))
      ensures ValidCall(SetRound(mode)) ==> OutsideRound(fpcr) == OutsideRound(old(fpcr))
    {
      hide WithRound, RoundField, PrecField, OutsideRound, ValidCall;
      r := AsmFesetround(mode);
      if ValidCall(SetRound(mode)) {
        SetRoundKeeps(old(fpcr), mode);
      }
    }

    /** Likewise behind fesetprec. */
    method AsmFesetprec(prec: bv32) returns (r: bv32)
      modifies `fpcr, `d0, `d1
      ensures r == 0 && fpcr == WithPrec(old(fpcr), prec)
    {
      d0 := prec;
      d1 := fpcr;
      d1 := d1 & 0xffff_ff3f;
      d1 := d1 | d0;
      fpcr := d1;
      d0 := 0;
      r := d0;
    }

    method Fesetprec(prec: bv32) returns (r: bv32)
      modifies `fpcr, `d0, `d1
      ensures r == 0 && Control() == Apply(old(Control()), SetPrec(prec))
      ensures ValidCall(SetPrec(prec)) ==> PrecField(fpcr) == prec && RoundField(fpcr) == RoundField(old(fpcr))
      ensures ValidCall(SetPrec(prec)) ==> OutsidePrec(fpcr) == OutsidePrec(old(fpcr))
    {
      hide WithPrec, RoundField, PrecField, OutsidePrec, ValidCall;
      r := AsmFesetprec(prec);
      if ValidCall(SetPrec(prec)) {
        SetPrecKeeps(old(fpcr), prec);
      }
    }

    /** feholdexcept is the same code. */
    method Fegetenv(a: int) returns (r: bv32)
      modifies `env, `d0
      ensures r == 0 && env == old(env)[a := fpcr] && fpcr == old(fpcr)
      ensures Control() == Apply(old(Control()), GetEnv(a))
    {
      env := env[a := fpcr];
      d0 := 0;
      r := d0;
    }

    method Fesetenv(a: int) returns (r: bv32)
      requires a in env
      modifies `fpcr, `d0
      ensures r == 0 && fpcr == old(env)[a] && env == old(env)
      ensures Control() == Apply(old(Control()), SetEnv(a))
    {
      LoadControl(env[a]);
      d0 := 0;
      r := d0;
    }
  }

  // ---------- runs ----------

  /** The control register and the saved environments. */
  datatype Environment = Environment(fpcr: bv32, env: map<int, bv32>)

  /** A call that may touch them. Inlined stands for ceil, floor, trunc and nearbyint. */
  datatype Call =
    | SetRound(mode: bv32)
    | SetPrec(prec: bv32)
    | GetEnv(a: int)
    | SetEnv(a: int)
    | Inlined

  function WithRound(fpcr: bv32, mode: bv32): bv32 {
    (fpcr & 0xffff_ffcf) | mode
  }

  function WithPrec(fpcr: bv32, prec: bv32): bv32 {
    (fpcr & 0xffff_ff3f) | prec
  }

  /** The bits outside each field. */
  function OutsideRound(fpcr: bv32): bv32 {
    fpcr & 0xffff_ffcf
  }

  function OutsidePrec(fpcr: bv32): bv32 {
    fpcr & 0xffff_ff3f
  }

  /** They are all of the register but two bits. */
  lemma OutsideRoundMeans(fpcr: bv32)
    ensures fpcr == OutsideRound(fpcr) | (fpcr & 0x30)
  {
  }

  lemma OutsidePrecMeans(fpcr: bv32)
    ensures fpcr == OutsidePrec(fpcr) | (fpcr & 0xc0)
  {
  }

  function Apply(s: Environment, c: Call): Environment {
    match c
    case SetRound(mode) => s.(fpcr := WithRound(s.fpcr, mode))
    case SetPrec(prec) => s.(fpcr := WithPrec(s.fpcr, prec))
    case GetEnv(a) => s.(env := s.env[a := s.fpcr])
    case SetEnv(a) => if a in s.env then s.(fpcr := s.env[a]) else s
    case Inlined => s
  }

  function ApplyAll(s: Environment, cs: seq<Call>): Environment {
    if cs == [] then s else Apply(ApplyAll(s, cs[..|cs| - 1]), cs[|cs| - 1])
  }

  datatype Field = Rounding | Precision

  function Get(f: Field, fpcr: bv32): bv32 {
    if f == Rounding then RoundField(fpcr) else PrecField(fpcr)
  }

  /** The arguments fesetround and fesetprec are specified for. */
  predicate ValidCall(c: Call) {
    match c
    case SetRound(mode) => mode in {0x00, 0x10, 0x20, 0x30}
    case SetPrec(prec) => prec in {0x00, 0x40, 0x80}
    case _ => true
  }

  /** What history says a field must be: the value most recently set, or, after a restore, what the
      field was when that environment was saved. No control register is involved. */
  function Latest(f: Field, s: Environment, cs: seq<Call>): bv32
    decreases |cs|, 1
  {
    if cs == [] then Get(f, s.fpcr)
    else
      var before := cs[..|cs| - 1];
      match cs[|cs| - 1]
      case SetRound(mode) => if f == Rounding then mode else Latest(f, s, before)
      case SetPrec(prec) => if f == Precision then prec else Latest(f, s, before)
      case SetEnv(a) => (match Saved(f, s, before, a) case None => Latest(f, s, before) case Some(v) => v)
      case _ => Latest(f, s, before)
  }

  /** The field in the environment most recently saved at a. */
  function Saved(f: Field, s: Environment, cs: seq<Call>, a: int): Option<bv32>
    decreases |cs|, 0
  {
    if cs == [] then (if a in s.env then Some(Get(f, s.env[a])) else None)
    else
      var before := cs[..|cs| - 1];
      if cs[|cs| - 1] == GetEnv(a) then Some(Latest(f, s, before)) else Saved(f, s, before, a)
  }

  /** Setting one field sets it and does not disturb the other. */
  lemma FieldsApart(f: Field, fpcr: bv32, c: Call)
    requires ValidCall(c)
    ensures c.SetRound? ==> Get(f, WithRound(fpcr, c.mode)) == if f == Rounding then c.mode else Get(f, fpcr)
    ensures c.SetPrec? ==> Get(f, WithPrec(fpcr, c.prec)) == if f == Precision then c.prec else Get(f, fpcr)
  {
  }

  /** Every bit outside the field is kept. */
  lemma OutsideRoundKept(fpcr: bv32, mode: bv32)
    requires mode in {0x00, 0x10, 0x20, 0x30}
    ensures OutsideRound(WithRound(fpcr, mode)) == OutsideRound(fpcr)
  {
  }

  lemma OutsidePrecKept(fpcr: bv32, prec: bv32)
    requires prec in {0x00, 0x40, 0x80}
    ensures OutsidePrec(WithPrec(fpcr, prec)) == OutsidePrec(fpcr)
  {
  }

  lemma SetRoundKeeps(fpcr: bv32, mode: bv32)
    requires ValidCall(SetRound(mode))
    ensures RoundField(WithRound(fpcr, mode)) == mode && PrecField(WithRound(fpcr, mode)) == PrecField(fpcr)
    ensures OutsideRound(WithRound(fpcr, mode)) == OutsideRound(fpcr)
  {
    hide WithRound, RoundField, PrecField, OutsideRound;
    FieldsApart(Rounding, fpcr, SetRound(mode));
    FieldsApart(Precision, fpcr, SetRound(mode));
    OutsideRoundKept(fpcr, mode);
  }

  lemma SetPrecKeeps(fpcr: bv32, prec: bv32)
    requires ValidCall(SetPrec(prec))
    ensures PrecField(WithPrec(fpcr, prec)) == prec && RoundField(WithPrec(fpcr, prec)) == RoundField(fpcr)
    ensures OutsidePrec(WithPrec(fpcr, prec)) == OutsidePrec(fpcr)
  {
    hide WithPrec, RoundField, PrecField, OutsidePrec;
    FieldsApart(Rounding, fpcr, SetPrec(prec));
    FieldsApart(Precision, fpcr, SetPrec(prec));
    OutsidePrecKept(fpcr, prec);
  }

  /** History and registers agree on a field, now and in every saved environment. */
  ghost predicate Agrees(f: Field, s: Environment, cs: seq<Call>, now: Environment) {
    && Get(f, now.fpcr) == Latest(f, s, cs)
    && forall a :: Saved(f, s, cs, a) == if a in now.env then Some(Get(f, now.env[a])) else None
  }

  lemma OneMoreCall(cs: seq<Call>, c: Call)
    ensures cs + [c] != [] && (cs + [c])[..|cs + [c]| - 1] == cs && (cs + [c])[|cs + [c]| - 1] == c
  {
  }

  lemma AgreesAfterSave(f: Field, s: Environment, cs: seq<Call>, now: Environment, c: Call)
    requires Agrees(f, s, cs, now) && c.GetEnv?
    ensures Agrees(f, s, cs + [c], Apply(now, c))
  {
    hide Get;
    OneMoreCall(cs, c);
  }

  lemma AgreesAfterRestore(f: Field, s: Environment, cs: seq<Call>, now: Environment, c: Call)
    requires Agrees(f, s, cs, now) && c.SetEnv?
    ensures Agrees(f, s, cs + [c], Apply(now, c))
  {
    hide Get;
    OneMoreCall(cs, c);
  }

  lemma AgreesAfterSet(f: Field, s: Environment, cs: seq<Call>, now: Environment, c: Call)
    requires Agrees(f, s, cs, now) && ValidCall(c) && (c.SetRound? || c.SetPrec? || c.Inlined?)
    ensures Agrees(f, s, cs + [c], Apply(now, c))
  {
    FieldsApart(f, now.fpcr, c);
    hide Get, WithRound, WithPrec, ValidCall;
    OneMoreCall(cs, c);
  }

  lemma AgreesAfter(f: Field, s: Environment, cs: seq<Call>, now: Environment, c: Call)
    requires Agrees(f, s, cs, now) && ValidCall(c)
    ensures Agrees(f, s, cs + [c], Apply(now, c))
  {
    hide Agrees, Apply, ValidCall;
    match c
    case GetEnv(_) => AgreesAfterSave(f, s, cs, now, c);
    case SetEnv(_) => AgreesAfterRestore(f, s, cs, now, c);
    case _ => AgreesAfterSet(f, s, cs, now, c);
  }

  /** In every run of valid calls, fegetround and fegetprec return the value most recently set or
      restored, and every saved environment holds what was in force when it was saved. */
  lemma {:induction false} LatestIsRead(f: Field, s: Environment, cs: seq<Call>)
    requires forall c :: c in cs ==> ValidCall(c)
    ensures Agrees(f, s, cs, ApplyAll(s, cs))
    ensures Get(f, ApplyAll(s, cs).fpcr) == Latest(f, s, cs)
    ensures forall a :: Saved(f, s, cs, a) ==
                        if a in ApplyAll(s, cs).env then Some(Get(f, ApplyAll(s, cs).env[a])) else None
  {
    hide Get, ValidCall, Apply;
    if cs == [] {
    } else {
      var before, c := cs[..|cs| - 1], cs[|cs| - 1];
      LatestIsRead(f, s, before);
      AgreesAfter(f, s, before, ApplyAll(s, before), c);
      assert before + [c] == cs;
    }
  }

  /** After every run of valid calls nearbyint rounds in the mode, and to the precision, most
      recently set or restored: it gives the integer of that mode exactly when that survives. */
  lemma NearbyintFollows(s: Environment, cs: seq<Call>, x: real)
    requires forall c :: c in cs ==> ValidCall(c)
    ensures var mode, prec := ModeOf(Latest(Rounding, s, cs)), Latest(Precision, s, cs);
      var n := ToIntegral(mode, x);
      ThroughInteger(ApplyAll(s, cs).fpcr, x) == n as real <==> Survives(BitsOf(prec), mode, n)
  {
    hide ToIntegral, ThroughInteger, Survives, Latest, ApplyAll;
    var fpcr := ApplyAll(s, cs).fpcr;
    LatestIsRead(Rounding, s, cs);
    LatestIsRead(Precision, s, cs);
    assert RoundField(RoundField(fpcr)) == RoundField(fpcr);
    assert PrecField(PrecField(fpcr)) == PrecField(fpcr);
    ThroughIntegerExact(fpcr, x);
  }

  lemma {:induction false} RunSplit(s: Environment, cs: seq<Call>, ds: seq<Call>)
    ensures ApplyAll(s, cs + ds) == ApplyAll(ApplyAll(s, cs), ds)
  {
    hide Apply;
    if ds == [] {
      assert cs + ds == cs;
    } else {
      assert (cs + ds)[..|cs + ds| - 1] == cs + ds[..|ds| - 1];
      RunSplit(s, cs, ds[..|ds| - 1]);
    }
  }

  /** Calls that do not save at a leave what is saved there. */
  lemma {:induction false} SavedStays(s: Environment, cs: seq<Call>, a: int)
    requires a in s.env && GetEnv(a) !in cs
    ensures a in ApplyAll(s, cs).env && ApplyAll(s, cs).env[a] == s.env[a]
  {
    hide WithRound, WithPrec;
    if cs == [] {
    } else {
      assert cs == cs[..|cs| - 1] + [cs[|cs| - 1]];
      SavedStays(s, cs[..|cs| - 1], a);
    }
  }

  /** A restore brings back the whole register as it was at the save, whatever was called in between,
      with whatever arguments. */
  lemma RestoreBringsBack(s: Environment, before: seq<Call>, a: int, between: seq<Call>)
    requires GetEnv(a) !in between
    ensures ApplyAll(s, before + [GetEnv(a)] + between + [SetEnv(a)]).fpcr == ApplyAll(s, before).fpcr
  {
    hide WithRound, WithPrec;
    var u := ApplyAll(s, before);
    var v := Apply(u, GetEnv(a));
    LastCall(s, before, GetEnv(a));
    RunSplit(s, before + [GetEnv(a)], between);
    SavedStays(v, between, a);
    LastCall(s, before + [GetEnv(a)] + between, SetEnv(a));
  }

  lemma LastCall(s: Environment, cs: seq<Call>, c: Call)
    ensures ApplyAll(s, cs + [c]) == Apply(ApplyAll(s, cs), c)
  {
    assert (cs + [c])[..|cs|] == cs;
  }

  /** Valid arguments, and no restore. */
  predicate OnlySets(cs: seq<Call>) {
    forall c :: c in cs ==> ValidCall(c) && !c.SetEnv?
  }

  /** The bits outside both fields. */
  function Others(fpcr: bv32): bv32 {
    fpcr & 0xffff_ff0f
  }

  lemma RoundOutsideKept(fpcr: bv32, mode: bv32)
    requires mode in {0x00, 0x10, 0x20, 0x30}
    ensures Others(WithRound(fpcr, mode)) == Others(fpcr)
  {
  }

  lemma PrecOutsideKept(fpcr: bv32, prec: bv32)
    requires prec in {0x00, 0x40, 0x80}
    ensures Others(WithPrec(fpcr, prec)) == Others(fpcr)
  {
  }

  /** Calls with valid arguments, and no restore, keep every bit outside the two fields. */
  lemma {:induction false} OthersKept(s: Environment, cs: seq<Call>)
    requires OnlySets(cs)
    ensures Others(ApplyAll(s, cs).fpcr) == Others(s.fpcr)
  {
    hide Others, WithRound, WithPrec;
    if cs == [] {
    } else {
      var now := ApplyAll(s, cs[..|cs| - 1]);
      OthersKept(s, cs[..|cs| - 1]);
      var last := cs[|cs| - 1];
      assert last in cs;
      match last
      case SetRound(mode) => RoundOutsideKept(now.fpcr, mode);
      case SetPrec(prec) => PrecOutsideKept(now.fpcr, prec);
      case _ =>
    }
  }

  lemma OthersAre(fpcr: bv32)
    ensures Others(fpcr) == fpcr & 0xffff_ff0f
  {
  }

  /** fesetround with an argument that is not a rounding mode: the code sets every bit it has. It
      sets the field and keeps the rest, for every prior register, exactly for arguments within
      the field. */
  lemma SetRoundArgument(mode: bv32)
    ensures (forall fpcr: bv32 :: RoundField(WithRound(fpcr, mode)) == mode
                               && WithRound(fpcr, mode) & 0xffff_ffcf == fpcr & 0xffff_ffcf)
            <==> ValidCall(SetRound(mode))
  {
    if ValidCall(SetRound(mode)) {
    } else {
      assert RoundField(WithRound(0, mode)) == mode & 0x30;
    }
  }

  /** Likewise fesetprec: exactly for arguments within its field, the undefined fourth code included. */
  lemma SetPrecArgument(prec: bv32)
    ensures (forall fpcr: bv32 :: PrecField(WithPrec(fpcr, prec)) == prec
                               && WithPrec(fpcr, prec) & 0xffff_ff3f == fpcr & 0xffff_ff3f)
            <==> ValidCall(SetPrec(prec)) || prec == 0xc0
  {
    if ValidCall(SetPrec(prec)) || prec == 0xc0 {
    } else {
      assert PrecField(WithPrec(0, prec)) == prec & 0xc0;
    }
  }
}
