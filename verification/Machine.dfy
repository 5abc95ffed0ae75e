/** The routines as a caller sees them: an object with registers and memory that a call changes in
    place, by fetching and executing the instructions of the routine until it is left. */
module Machine {
  import opened Words
  import opened M68k
  import opened StringCode
  import opened M68kRuns
  import opened Blocks
  import opened Transfers
  import opened CStrings
  import opened StringRuns
  import opened Memmove

  /** What the processor itself refuses: odd word and long addresses on the 68000, nothing on the
      68020. */
  function Hardware(f: Family): Guard {
    Guard(EVERYWHERE, EVERYWHERE, EVERYWHERE, if f == M68000 then EvenAddresses else AnyAddress)
  }

  lemma HardwareAllows(f: Family, j: Job)
    requires Sound(j)
    ensures Allows(Hardware(f), j) && Suits(f, Hardware(f))
  {
  }

  class Computer {
    const family: Family
    const ram: array<byte>
    var d0: u32
    var d1: u32
    var d2: u32
    var a0: u32
    var a1: u32
    var cf: bool
    var nf: bool
    var zf: bool
    var pc: int
    var moves: nat
    var fault: bool

    constructor (f: Family, m: array<byte>)
      ensures family == f && ram == m
    {
      family := f;
      ram := m;
      d0, d1, d2, a0, a1 := 0, 0, 0, 0, 0;
      cf, nf, zf, fault := false, false, false, false;
      pc, moves := 0, 0;
    }

    /** The state as a value. */
    ghost function State(): Cpu
      reads this, ram
    {
      Cpu(d0, d1, d2, a0, a1, cf, nf, zf, pc, ram[..], moves, fault)
    }

    function Running(r: Routine): Program {
      Program(r, Hardware(family))
    }

    // ---------- registers ----------

    method ReadD(r: DReg) returns (v: u32)
      ensures v == GetD(State(), r)
    {
      match r
      case D0 => v := d0;
      case D1 => v := d1;
      case D2 => v := d2;
    }

    method WriteD(r: DReg, v: u32)
      modifies `d0, `d1, `d2
      ensures State() == SetD(old(State()), r, v)
    {
      match r
      case D0 => d0 := v;
      case D1 => d1 := v;
      case D2 => d2 := v;
    }

    method ReadA(r: AReg) returns (v: u32)
      ensures v == GetA(State(), r)
    {
      match r
      case A0 => v := a0;
      case A1 => v := a1;
    }

    method WriteA(r: AReg, v: u32)
      modifies `a0, `a1
      ensures State() == SetA(old(State()), r, v)
    {
      match r
      case A0 => a0 := v;
      case A1 => a1 := v;
    }

    method Flag(sz: Size, v: u32, c: bool)
      modifies `cf, `nf, `zf
      ensures State() == SetFlags(old(State()), sz, v, c)
    {
      cf, zf, nf := c, v == 0, v >= Modulus(sz) / 2;
    }

    /** The result of an operation on a data register. */
    method Finish(r: DReg, sz: Size, v: u32, c: bool)
      modifies `d0, `d1, `d2, `cf, `nf, `zf
      ensures State() == Result(old(State()), r, sz, v, c)
    {
      hide Merge, SetFlags;
      var x := ReadD(r);
      WriteD(r, Merge(x, sz, v));
      Flag(sz, v, c);
    }

    // ---------- memory ----------

    method LoadFrom(a: u32, sz: Size) returns (ok: bool, v: u32)
      ensures ok == MayLoad(Hardware(family), ram[..], a, sz)
      ensures ok ==> v == Load(ram[..], a, sz)
    {
      v := 0;
      ok := a + Bytes(sz) <= ram.Length && Inside(EVERYWHERE, a, Bytes(sz)) && AlignedLoad(Hardware(family), a, sz);
      if ok {
        var b0: int := ram[a];
        match sz
        case B => v := b0;
        case W =>
          var b1: int := ram[a + 1];
          v := b0 * 0x100 + b1;
        case L =>
          var b1: int, b2: int, b3: int := ram[a + 1], ram[a + 2], ram[a + 3];
          v := b0 * 0x100_0000 + b1 * 0x1_0000 + b2 * 0x100 + b3;
      }
    }

    /** Big-endian, byte by byte. */
    method StoreTo(a: u32, sz: Size, v: u32)
      modifies ram, `moves, `fault
      ensures State() == StoreAt(Hardware(family), old(State()), a, sz, v)
    {
      hide Hardware, AlignedStore;
      var g := Hardware(family);
      if !(a + Bytes(sz) <= ram.Length && Inside(g.write, a, Bytes(sz)) && AlignedStore(g, a, sz)) {
        fault := true;
        return;
      }
      match sz {
        case B =>
          ram[a] := v % 0x100;
        case W =>
          ram[a] := v / 0x100 % 0x100;
          ram[a + 1] := v % 0x100;
        case L =>
          ram[a] := v / 0x100_0000;
          ram[a + 1] := v / 0x1_0000 % 0x100;
          ram[a + 2] := v / 0x100 % 0x100;
          ram[a + 3] := v % 0x100;
      }
      moves := moves + 1;
    }

    // ---------- operands ----------

    /** A source operand; the address register moves with it. */
    method FetchOperand(o: Operand, sz: Size) returns (ok: bool, v: u32)
      modifies `a0, `a1
      ensures match Source(Hardware(family), old(State()), o, sz)
              case Trap => !ok && State() == old(State())
              case Got(x, s) => ok && v == x && State() == s
    {
      hide Hardware, MayLoad, Load, Low, Wrap;
      ok := true;
      match o
      case D(r) =>
        v := ReadD(r);
        v := Low(v, sz);
      case A(r) =>
        v := ReadA(r);
        v := Low(v, sz);
      case Imm(n) =>
        v := Low(n, sz);
      case Ind(r) =>
        var a := ReadA(r);
        ok, v := LoadFrom(a, sz);
      case PostInc(r) =>
        var a := ReadA(r);
        ok, v := LoadFrom(a, sz);
        if ok {
          WriteA(r, Wrap(a + Bytes(sz)));
        }
      case PreDec(r) =>
        var a := ReadA(r);
        a := Wrap(a - Bytes(sz));
        ok, v := LoadFrom(a, sz);
        if ok {
          WriteA(r, a);
        }
    }

    /** A destination operand in memory. */
    method PutOperand(o: Operand, sz: Size, v: u32)
      modifies this, ram
      ensures State() == Put(Hardware(family), old(State()), o, sz, v)
    {
      hide Hardware, StoreAt, Wrap;
      match o
      case Ind(r) =>
        var a := ReadA(r);
        StoreTo(a, sz, v);
      case PostInc(r) =>
        var a := ReadA(r);
        WriteA(r, Wrap(a + Bytes(sz)));
        StoreTo(a, sz, v);
      case PreDec(r) =>
        var a := ReadA(r);
        a := Wrap(a - Bytes(sz));
        WriteA(r, a);
        StoreTo(a, sz, v);
      case _ =>
        fault := true;
    }

    // ---------- instructions ----------

    /** The move of a value to memory; the flags tell about it. */
    method MoveOut(dst: Operand, sz: Size, v: u32)
      modifies this, ram
      ensures State() == SetFlags(Put(Hardware(family), old(State()), dst, sz, v), sz, v, false)
    {
      hide Hardware, Put, SetFlags;
      PutOperand(dst, sz, v);
      Flag(sz, v, false);
    }

    method DoMove(sz: Size, src: Operand, dst: Operand)
      modifies this, ram
      ensures State() == ExecMove(Hardware(family), sz, src, dst, old(State()))
    {
      hide Hardware, Source, Put, Result, SetFlags;
      var ok, v := FetchOperand(src, sz);
      if !ok {
        fault := true;
        return;
      }
      match dst
      case D(r) => Finish(r, sz, v, false);
      case A(r) => WriteA(r, v);
      case _ => MoveOut(dst, sz, v);
    }

    /** The instructions on a source operand and, for all but tst, a data register. */
    method DoArithmetic(i: Instr)
      requires i.Tst? || i.Cmp? || i.And? || i.Sub?
      modifies this
      ensures State() == match i
                         case Tst(sz, src) => ExecTst(Hardware(family), sz, src, old(State()))
                         case Cmp(sz, src, r) => ExecCmp(Hardware(family), sz, src, r, old(State()))
                         case And(sz, src, r) => ExecAnd(Hardware(family), sz, src, r, old(State()))
                         case Sub(sz, src, r) => ExecSub(Hardware(family), sz, src, r, old(State()))
    {
      hide Hardware, Source, Result, SetFlags, Low, Difference, BitAnd;
      var ok, y := FetchOperand(i.src, i.sz);
      if !ok {
        fault := true;
        return;
      }
      if i.Tst? {
        Flag(i.sz, y, false);
      } else {
        var x := ReadD(i.r);
        x := Low(x, i.sz);
        if i.Cmp? {
          Flag(i.sz, Difference(x, y, i.sz), x < y);
        } else if i.And? {
          Finish(i.r, i.sz, BitAnd(x, y), false);
        } else {
          Finish(i.r, i.sz, Difference(x, y, i.sz), x < y);
        }
      }
    }

    /** The instructions on one data register. */
    method DoRegister(i: Instr)
      requires i.Moveq? || i.Addq? || i.Subq? || i.Lsl8? || i.Lsr1? || i.Not? || i.Swap?
      modifies this
      ensures State() == match i
                         case Moveq(n, r) => Result(old(State()), r, L, n, false)
                         case Addq(sz, n, r) => ExecAddq(sz, n, r, old(State()))
                         case Subq(sz, n, r) => ExecSubq(sz, n, r, old(State()))
                         case Lsl8(sz, r) => ExecLsl8(sz, r, old(State()))
                         case Lsr1(r) => ExecLsr1(r, old(State()))
                         case Not(r) => ExecNot(r, old(State()))
                         case Swap(r) => ExecSwap(r, old(State()))
    {
      hide Result, Low, Sum, Difference;
      var x := ReadD(i.r);
      match i
      case Moveq(n, r) => Finish(r, L, n, false);
      case Addq(sz, n, r) => Finish(r, sz, Sum(Low(x, sz), n, sz), Low(x, sz) + n >= Modulus(sz));
      case Subq(sz, n, r) => Finish(r, sz, Difference(Low(x, sz), n, sz), Low(x, sz) < n);
      case Lsl8(sz, r) =>
        var shifted := Low(x, sz) * 0x100;
        Finish(r, sz, shifted % Modulus(sz), shifted / Modulus(sz) % 2 == 1);
      case Lsr1(r) => Finish(r, L, x / 2, x % 2 == 1);
      case Not(r) => Finish(r, L, TWO32 - 1 - x, false);
      case Swap(r) => Finish(r, L, x % 0x1_0000 * 0x1_0000 + x / 0x1_0000, false);
    }

    /** The instructions on one address register. */
    method DoAddress(i: Instr)
      requires i.AddqA? || i.SubqA?
      modifies this
      ensures var a := GetA(old(State()), i.a);
        State() == SetA(old(State()), i.a, Wrap(if i.AddqA? then a + i.n else a - i.n))
    {
      hide Wrap;
      var a := ReadA(i.a);
      WriteA(i.a, Wrap(if i.AddqA? then a + i.n else a - i.n));
    }

    method DoBranch(i: Instr)
      requires i.Bcc? || i.Dbf?
      modifies this
      ensures State() == Exec(Hardware(family), i, old(State()))
    {
      hide Low, Merge, Difference;
      match i
      case Bcc(cond, disp) =>
        var taken := match cond
          case RA => true
          case EQ => zf
          case NE => !zf
          case CC => !cf
          case CS => cf
          case PL => !nf
          case MI => nf;
        pc := if taken then pc + 2 + disp else pc + 2;
      case Dbf(r, disp) =>
        var x := ReadD(r);
        WriteD(r, Merge(x, W, Difference(Low(x, W), 1, W)));
        pc := if Low(x, W) == 0 then pc + 4 else pc + 2 + disp;
    }

    /** One instruction, executed in place. */
    method Perform(i: Instr)
      modifies this, ram
      ensures State() == Exec(Hardware(family), i, old(State()))
    {
      hide Hardware, ExecMove, ExecTst, ExecCmp, ExecAnd, ExecSub, ExecAddq, ExecSubq;
      hide ExecLsl8, ExecLsr1, ExecNot, ExecSwap, Result, Length, Wrap;
      if i.Bcc? || i.Dbf? {
        DoBranch(i);
      } else {
        pc := pc + Length(i);
        assert State() == Skip(old(State()), Length(i));
        hide Skip;
        if i.Move? {
          DoMove(i.sz, i.src, i.dst);
        } else if i.Tst? || i.Cmp? || i.And? || i.Sub? {
          DoArithmetic(i);
        } else if i.AddqA? || i.SubqA? {
          DoAddress(i);
        } else {
          DoRegister(i);
        }
      }
    }

    /** One step of a routine. */
    method Tick(r: Routine)
      modifies this, ram
      ensures State() == Step(Running(r), old(State()))
    {
      hide Exec, Code, Hardware;
      var i := Code(r, pc);
      if i.Some? && !fault {
        Perform(i.value);
      }
    }

    /** Run a routine that is known to finish, until its end. */
    method Execute(r: Routine, ghost t: Cpu)
      requires Finishes(Running(r), State(), t)
      modifies this, ram
      ensures State() == t
    {
      hide Exec, Code, End;
      ghost var p, s := Running(r), State();
      ghost var k: nat :| Run(p, s, k) == t;
      ghost var i := 0;
      while pc != End(r)
        invariant i <= k && State() == Run(p, s, i)
        decreases k - i
      {
        Tick(r);
        i := i + 1;
      }
      StaysAtEnd(p, s, State(), i, k);
    }

    /** Load the address registers, as the compiler does around inline code. */
    method Enter(x: u32, y: u32)
      modifies `a0, `a1, `pc, `fault
      ensures State() == old(State()).(a0 := x, a1 := y, pc := 0, fault := false)
    {
      a0, a1, pc, fault := x, y, 0, false;
    }

    method Memcpy(d: u32, s: u32, n: u32) returns (r: u32)
      requires ram.Length <= TWO32 && d + n <= ram.Length && s + n <= ram.Length
      requires d + n <= s || s + n <= d
      modifies this, ram
      ensures r == d && ram[..] == Copied(old(ram[..]), d, s, n)
      ensures forall i :: 0 <= i < ram.Length ==>
                ram[i] == if d <= i < d + n then old(ram[..])[s + (i - d)] else old(ram[..])[i]
    {
      hide Finishes, Copied, Allows, Suits, Hardware, Wrap, Progress, CopyRoutine;
      CopiedBytes(ram[..], d, s, n);
      ghost var j := Job(Up, ram[..], d, s, n, 0);
      Enter(d, s);
      d2 := n;
      ProgressStarts(j);
      HardwareAllows(family, j);
      ghost var t := BlockRuns(family, Running(CopyRoutine(family, Up)), State(), j);
      Execute(CopyRoutine(family, Up), t);
      assert forall i :: 0 <= i < ram.Length ==> ram[i] == Copied(old(ram[..]), d, s, n)[i];
      r := d0;
    }

    /** The macro: the ascending copy, or the descending one from the ends of the blocks. */
    method Memmove(d: u32, s: u32, n: u32) returns (r: u32)
      requires ram.Length <= TWO32 && d + n <= ram.Length && s + n <= ram.Length
      modifies this, ram
      ensures r == d && ram[..] == Copied(old(ram[..]), d, s, n)
      ensures forall i :: 0 <= i < ram.Length ==>
                ram[i] == if d <= i < d + n then old(ram[..])[s + (i - d)] else old(ram[..])[i]
    {
      hide Finishes, Copied, Allows, Suits, Hardware, Wrap, Progress, CopyRoutine;
      CopiedBytes(ram[..], d, s, n);
      ghost var j := MoveJob(ram[..], d, s, n);
      ProgressStarts(j);
      HardwareAllows(family, j);
      if d <= s {
        Enter(d, s);
        d2 := n;
        ghost var t := BlockRuns(family, Running(CopyRoutine(family, Up)), State(), j);
        Execute(CopyRoutine(family, Up), t);
      } else {
        Enter(Wrap(d + n), Wrap(s + n));
        d2 := n;
        ghost var t := BlockRuns(family, Running(CopyRoutine(family, Down)), State(), j);
        Execute(CopyRoutine(family, Down), t);
      }
      assert forall i :: 0 <= i < ram.Length ==> ram[i] == Copied(old(ram[..]), d, s, n)[i];
      r := d0;
    }

    method Memset(d: u32, c: u32, n: u32) returns (r: u32)
      requires ram.Length <= TWO32 && d + n <= ram.Length
      modifies this, ram
      ensures r == d && ram[..] == Filled(old(ram[..]), d, c % 0x100, n)
      ensures forall i :: 0 <= i < ram.Length ==> ram[i] == if d <= i < d + n then c % 0x100 else old(ram[..])[i]
    {
      hide Finishes, Filled, Allows, Suits, Hardware, Wrap, Progress, CopyRoutine;
      FilledBytes(ram[..], d, c % 0x100, n);
      ghost var j := Job(Set, ram[..], d, 0, n, c % 0x100);
      Enter(d, a1);
      d0, d2 := c, n;
      HardwareAllows(family, j);
      ghost var t := BlockRuns(family, Running(CopyRoutine(family, Set)), State(), j);
      Execute(CopyRoutine(family, Set), t);
      r := d0;
    }

    method Strlen(s: u32, ghost n: int) returns (r: u32)
      requires ram.Length <= TWO32 && IsString(ram[..], s, n)
      modifies this, ram
      ensures r == n && ram[..] == old(ram[..])
    {
      hide Finishes, IsString;
      StringInside(ram[..], s, n);
      Enter(s, a1);
      ghost var t := StrlenRuns(Running(Routine.Strlen), State(), n);
      Execute(Routine.Strlen, t);
      r := d0;
    }

    method Strcpy(d: u32, s: u32, ghost n: int) returns (r: u32)
      requires ram.Length <= TWO32 && IsString(ram[..], s, n) && d + n + 1 <= ram.Length
      requires d + n + 1 <= s || s + n + 1 <= d
      modifies this, ram
      ensures r == d && ram[..] == Copied(old(ram[..]), d, s, n + 1)
      ensures forall i :: 0 <= i < ram.Length ==>
                ram[i] == if d <= i <= d + n then old(ram[..])[s + (i - d)] else old(ram[..])[i]
    {
      hide Finishes, IsString, Copied, Allows, Hardware, Wrap, Progress;
      StringInside(ram[..], s, n);
      CopiedBytes(ram[..], d, s, n + 1);
      ghost var j := Job(Up, ram[..], d, s, n + 1, 0);
      ProgressStarts(j);
      HardwareAllows(family, j);
      Enter(d, s);
      ghost var t := StrcpyRuns(Running(Routine.Strcpy), State(), j, n);
      Execute(Routine.Strcpy, t);
      assert forall i :: 0 <= i < ram.Length ==> ram[i] == Copied(old(ram[..]), d, s, n + 1)[i];
      r := d0;
    }

    /** A count above 2^31 writes nothing. */
    method Strncpy(d: u32, s: u32, n: u32, ghost l: int) returns (r: u32)
      requires ram.Length <= TWO32 && IsCut(ram[..], s, l, n) && d + n <= ram.Length
      requires d + n <= s || s + (if l < n then l + 1 else n) <= d
      modifies this, ram
      ensures r == d
      ensures ram[..] == if n <= TWO31 then PaddedCopy(old(ram[..]), d, s, l, n) else old(ram[..])
      ensures n <= TWO31 ==>
                forall i :: 0 <= i < ram.Length ==>
                  ram[i] == if d <= i < d + l then old(ram[..])[s + (i - d)]
                            else if d + l <= i < d + n then 0
                            else old(ram[..])[i]
    {
      hide Finishes, IsCut, PaddedCopy;
      CutInMemory(ram[..], s, l, n);
      NothingCut(ram[..], s, l, n);
      NothingPadded(ram[..], d, s);
      PaddedBytes(ram[..], d, s, l, n);
      Enter(d, s);
      d1 := n;
      ghost var t := StrncpyRuns(Running(Routine.Strncpy), State(), if n <= TWO31 then l else 0);
      Execute(Routine.Strncpy, t);
      assert n <= TWO31 ==> forall i :: 0 <= i < ram.Length ==> ram[i] == PaddedCopy(old(ram[..]), d, s, l, n)[i];
      r := d0;
    }

    method Strcmp(s: u32, u: u32, ghost x: int, ghost y: int) returns (r: int)
      requires ram.Length <= TWO32 && IsString(ram[..], s, x) && IsString(ram[..], u, y)
      modifies this, ram
      ensures ram[..] == old(ram[..])
      ensures r == Compare(ram[..][s..s + x], ram[..][u..u + y])
    {
      hide Finishes, IsString, Compare, Signed;
      StringInside(ram[..], s, x);
      StringInside(ram[..], u, y);
      Enter(s, u);
      ghost var t := StrcmpRuns(Running(Routine.Strcmp), State(), x, y);
      Execute(Routine.Strcmp, t);
      r := Signed(d0);
    }

    /** A count above 2^31 compares nothing. */
    method Strncmp(s: u32, u: u32, n: u32, ghost x: int, ghost y: int) returns (r: int)
      requires ram.Length <= TWO32 && IsCut(ram[..], s, x, n) && IsCut(ram[..], u, y, n)
      modifies this, ram
      ensures ram[..] == old(ram[..])
      ensures r == if n <= TWO31 then Compare(ram[..][s..s + x], ram[..][u..u + y]) else 0
    {
      hide Finishes, IsCut, Compare, Signed;
      CutInMemory(ram[..], s, x, n);
      CutInMemory(ram[..], u, y, n);
      NothingCut(ram[..], s, x, n);
      NothingCut(ram[..], u, y, n);
      Enter(s, u);
      d2 := n;
      ghost var t := StrncmpRuns(Running(Routine.Strncmp), State(),
                                 if n <= TWO31 then x else 0, if n <= TWO31 then y else 0);
      Execute(Routine.Strncmp, t);
      r := Signed(d0);
    }

    method Strcat(d: u32, s: u32, ghost k: int, ghost n: int) returns (r: u32)
      requires ram.Length <= TWO32 && IsString(ram[..], d, k) && IsString(ram[..], s, n) && d + k + n + 1 <= ram.Length
      requires d + k + n + 1 <= s || s + n + 1 <= d
      modifies this, ram
      ensures r == d
      ensures ram[..] == Copied(old(ram[..]), d + k, s, n + 1)
      ensures forall i :: 0 <= i < ram.Length ==>
                ram[i] == if d + k <= i <= d + k + n then old(ram[..])[s + (i - d - k)] else old(ram[..])[i]
    {
      hide Finishes, IsString, Copied, Allows, Hardware, Wrap, Progress;
      StringInside(ram[..], d, k);
      StringInside(ram[..], s, n);
      CopiedBytes(ram[..], d + k, s, n + 1);
      ghost var j := Job(Up, ram[..], d + k, s, n + 1, 0);
      HardwareAllows(family, j);
      HardwareReads(family, d, k + 1);
      Enter(d, s);
      ghost var t := StrcatRuns(Running(Routine.Strcat), State(), k, j, n);
      Execute(Routine.Strcat, t);
      assert forall i :: 0 <= i < ram.Length ==> ram[i] == Copied(old(ram[..]), d + k, s, n + 1)[i];
      r := d0;
    }

    method Strrchr(s: u32, c: u32, ghost n: int) returns (r: u32)
      requires ram.Length <= TWO32 && IsString(ram[..], s, n)
      modifies this, ram
      ensures ram[..] == old(ram[..])
      ensures r == Pointer(s, LastMatch(ram[..], s, n + 1, c % 0x100))
      ensures (forall i :: s <= i <= s + n ==> ram[i] != c % 0x100) ==> r == 0
      ensures (exists i :: s <= i <= s + n && ram[i] == c % 0x100) ==>
                && s <= r <= s + n && ram[r] == c % 0x100
                && forall i :: r < i <= s + n ==> ram[i] != c % 0x100
    {
      hide Finishes, IsString, LastMatch, Pointer;
      StringInside(ram[..], s, n);
      PointerMeans(ram[..], s, n, c % 0x100);
      Enter(s, a1);
      d1 := c;
      ghost var t := StrrchrRuns(Running(Routine.Strrchr), State(), n);
      Execute(Routine.Strrchr, t);
      r := d0;
    }
  }

  lemma StringInside(m: seq<byte>, a: int, n: int)
    requires IsString(m, a, n)
    ensures 0 <= a && 0 <= n && a + n < |m|
  {
  }

  lemma NothingCut(m: seq<byte>, a: int, x: int, n: int)
    requires IsCut(m, a, x, n)
    ensures IsCut(m, a, 0, 0) && a <= |m| && m[a..a] == [] && Compare([], []) == 0
  {
  }

  lemma HardwareReads(f: Family, a: int, n: int)
    requires 0 <= a && a + n <= TWO32
    ensures AllowsRead(Hardware(f), a, n)
  {
  }
}
