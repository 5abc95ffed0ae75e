/** What every single step of a copy keeps: at any moment of any run exactly the first k bytes of
    the job are done, for some k, and both address registers stand at the same place of their
    blocks - in each of the four copies, however they group the bytes. */
module CopySteps {
  import opened Options
  import opened Words
  import opened M68k
  import opened StringCode
  import opened M68kRuns
  import opened Blocks
  import opened Transfers
  import opened BlockCopies
  import opened Memmove
  import opened Footprints

  /** An instruction that writes neither memory nor an address register. */
  predicate DataOnly(i: Instr) {
    match i
    case Move(_, src, dst) => Plain(src) && dst.D?
    case Tst(_, src) => Plain(src)
    case Cmp(_, src, _) => Plain(src)
    case And(_, src, _) => Plain(src)
    case Sub(_, src, _) => Plain(src)
    case AddqA(_, _) => false
    case SubqA(_, _) => false
    case _ => true
  }

  lemma PlainSource(g: Guard, s: Cpu, o: Operand, sz: Size)
    requires Plain(o)
    ensures Source(g, s, o, sz) == Got(PlainValue(s, o, sz), s)
  {
  }

  lemma DataOnlyKeeps(g: Guard, i: Instr, s: Cpu)
    requires DataOnly(i)
    ensures var t := Exec(g, i, s); t.mem == s.mem && t.a0 == s.a0 && t.a1 == s.a1 && t.fault == s.fault
  {
    hide Low, Wrap, Difference, Sum, BitAnd, Length, Merge, Modulus, Holds, Result, SetFlags, Source;
    if i.Move? || i.Tst? || i.Cmp? || i.And? || i.Sub? {
      PlainSource(g, Skip(s, Length(i)), i.src, i.sz);
    }
  }

  predicate IsTransfer(way: Way, i: Instr) {
    i.Move? && i == Transfer(way, i.sz)
  }

  /** The copies consist of transfers and data register instructions. */
  lemma CopyInstructions(f: Family, way: Way, pc: int, i: Instr)
    requires way != Set && Code(CopyRoutine(f, way), pc) == Some(i)
    ensures DataOnly(i) || IsTransfer(way, i)
  {
    hide Code, DataOnly, IsTransfer;
    match (f, way)
    case (M68000, Up) => CopyInstructionsOf(Memcpy000, way, pc, i);
    case (M68000, Down) => CopyInstructionsOf(MemcpyDesc000, way, pc, i);
    case (M68020, Up) => CopyInstructionsOf(Memcpy020, way, pc, i);
    case (M68020, Down) => CopyInstructionsOf(MemcpyDesc020, way, pc, i);
  }

  lemma CopyInstructionsOf(r: Routine, way: Way, pc: int, i: Instr)
    requires (r, way) in {(Memcpy000, Up), (MemcpyDesc000, Down), (Memcpy020, Up), (MemcpyDesc020, Down)}
    requires Code(r, pc) == Some(i)
    ensures DataOnly(i) || IsTransfer(way, i)
  {
  }

  /** A transfer that is not refused was allowed both of its accesses. */
  lemma TransferAllowed(g: Guard, c: Cpu, way: Way, sz: Size)
    requires way != Set && !Exec(g, Transfer(way, sz), c).fault
    ensures way == Up ==> MayLoad(g, c.mem, c.a1, sz) && MayStore(g, c.mem, c.a0, sz)
    ensures way == Down ==>
              MayLoad(g, c.mem, Wrap(c.a1 - Bytes(sz)), sz) && MayStore(g, c.mem, Wrap(c.a0 - Bytes(sz)), sz)
  {
    hide MayLoad, MayStore, Load, Store, Wrap, Bytes, Modulus;
  }

  /** Then it has room left in the job, so it does the next chunk. */
  lemma TransferFits(g: Guard, j: Job, c: Cpu, k: int, sz: Size)
    requires At(j, c, k) && j.way != Set && j.n < TWO32
    requires g.write == Region(j.d, j.d + j.n) && !Exec(g, Transfer(j.way, sz), c).fault
    ensures k + Bytes(sz) <= j.n && Fits(g, j, k, sz)
  {
    hide Exec, Fits, MayLoad, MayStore, Wrap, At, Transfer;
    TransferAllowed(g, c, j.way, sz);
    if j.way == Up {
      RoomAbove(g, j, c, k, sz);
    } else {
      RoomBelow(g, j, c, k, sz);
    }
  }

  lemma RoomAbove(g: Guard, j: Job, c: Cpu, k: int, sz: Size)
    requires At(j, c, k) && j.way == Up && j.n < TWO32 && g.write == Region(j.d, j.d + j.n)
    requires MayLoad(g, c.mem, c.a1, sz) && MayStore(g, c.mem, c.a0, sz)
    ensures k + Bytes(sz) <= j.n && Fits(g, j, k, sz)
  {
    hide Progress, AlignedStore, AlignedLoad, Wrap;
  }

  lemma RoomBelow(g: Guard, j: Job, c: Cpu, k: int, sz: Size)
    requires At(j, c, k) && j.way == Down && j.n < TWO32 && g.write == Region(j.d, j.d + j.n)
    requires MayLoad(g, c.mem, Wrap(c.a1 - Bytes(sz)), sz) && MayStore(g, c.mem, Wrap(c.a0 - Bytes(sz)), sz)
    ensures k + Bytes(sz) <= j.n && Fits(g, j, k, sz)
  {
    hide Progress, AlignedStore, AlignedLoad, Wrap;
  }

  /** One step from k bytes done leads to some number of bytes done. */
  lemma StepIsProgress(f: Family, p: Program, s: Cpu, j: Job, u: Cpu, k: int) returns (k': int)
    requires p.routine == CopyRoutine(f, j.way) && j.way != Set && p.guard == BlockGuard(f, j) && j.n < TWO32
    requires At(j, u, k) && !Step(p, u).fault
    ensures At(j, Step(p, u), k')
  {
    hide Exec, Code, At, Transfer, CopyRoutine, DataOnly, Fits;
    k' := k;
    var i := Code(p.routine, u.pc);
    Running(j, u, k);
    if i.Some? {
      CopyInstructions(f, j.way, u.pc, i.value);
      if DataOnly(i.value) {
        DataOnlyKeeps(p.guard, i.value, u);
        StillAt(j, u, Step(p, u), k);
      } else {
        ReachesItself(p, u);
        TransferFits(p.guard, j, u, k, i.value.sz);
        if j.way == Up {
          var t := TransferUp(p, u, u, j, k, i.value.sz);
        } else {
          var t := TransferDown(p, u, u, j, k, i.value.sz);
        }
        k' := k + Bytes(i.value.sz);
      }
    }
  }

  /** Some number of bytes of the job are done, and the machine stands behind them. */
  ghost predicate InProgress(j: Job, c: Cpu) {
    exists k :: At(j, c, k)
  }

  lemma {:induction false} GuardedProgress(f: Family, p: Program, s: Cpu, j: Job, t: Cpu, i: nat)
    requires p.routine == CopyRoutine(f, j.way) && j.way != Set && p.guard == BlockGuard(f, j) && j.n < TWO32
    requires Entered(j, s) && Finishes(p, s, t)
    ensures InProgress(j, Run(p, s, i))
  {
    hide Step, At, Finishes, CopyRoutine, BlockGuard;
    if i == 0 {
      assert At(j, s, 0);
    } else {
      GuardedProgress(f, p, s, j, t, i - 1);
      var u := Run(p, s, i - 1);
      var k :| At(j, u, k);
      NeverRefused(p, s, t, i);
      var k' := StepIsProgress(f, p, s, j, u, k);
    }
  }

  /** In every state of every run of a copy, memory is the original with exactly k bytes of the job
      done, and the address registers stand behind them - whatever the processor allows. */
  lemma EveryStepIsProgress(f: Family, q: Program, s: Cpu, j: Job)
    requires q.routine == CopyRoutine(f, j.way) && j.way != Set && Entered(j, s)
    requires Wider(BlockGuard(f, j), q.guard)
    ensures forall i: nat :: InProgress(j, Run(q, s, i))
  {
    assert j.n < TWO32;
    hide Finishes, Entered, CopyRoutine, Wider, Run, InProgress;
    var p := Program(q.routine, BlockGuard(f, j));
    var t := BlockFootprint(f, q, s, j);
    forall i: nat
      ensures InProgress(j, Run(q, s, i))
    {
      GuardedProgress(f, p, s, j, t, i);
      assert Run(q, s, i) == Run(p, s, i);
    }
  }
}
