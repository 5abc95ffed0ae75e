/** The loops shared by the block routines, for ascending and descending copies and for fills:
    each is run from its first instruction to its exit, with the bytes it transfers accounted for. */
module Transfers {
  import opened Options
  import opened Words
  import opened M68k
  import opened StringCode
  import opened M68kRuns
  import opened Blocks

  /** The machine is k bytes into job j: memory, and both address registers. For Set, a1 keeps
      the start of the block, which is the result. */
  predicate At(j: Job, c: Cpu, k: int) {
    && Sound(j) && 0 <= k <= j.n && !c.fault
    && c.mem == Progress(j, k)
    && match j.way
       case Up => c.a0 == Wrap(j.d + k) && c.a1 == Wrap(j.s + k)
       case Down => c.a0 == Wrap(j.d + j.n - k) && c.a1 == Wrap(j.s + j.n - k)
       case Set => c.a0 == Wrap(j.d + k) && c.a1 == Wrap(j.d)
  }

  lemma StillAt(j: Job, c: Cpu, t: Cpu, k: int)
    requires At(j, c, k) && t.mem == c.mem && t.a0 == c.a0 && t.a1 == c.a1 && !t.fault
    ensures At(j, t, k)
  {
  }

  lemma Running(j: Job, c: Cpu, k: int)
    requires At(j, c, k)
    ensures !c.fault && 0 <= k <= j.n && Sound(j) && c.mem == Progress(j, k)
  {
  }

  /** The instruction that does the next chunk. */
  function Transfer(way: Way, sz: Size): Instr {
    match way
    case Up => Move(sz, PostInc(A1), PostInc(A0))
    case Down => Move(sz, PreDec(A1), PreDec(A0))
    case Set => Move(sz, D(D0), PostInc(A0))
  }

  /** The guard allows reading the source block and writing the destination block. */
  predicate Allows(g: Guard, j: Job) {
    && Inside(g.write, j.d, j.n)
    && (j.way != Set ==> Inside(g.read1, j.s, j.n))
  }

  /** The next chunk of this size is where the guard wants such chunks aligned. */
  predicate Fits(g: Guard, j: Job, k: int, sz: Size) {
    && AlignedStore(g, Target(j, k, Bytes(sz)), sz)
    && (j.way != Set ==> AlignedLoad(g, Origin(j, k, Bytes(sz)), sz))
  }

  /** For a fill, the low part of d0 holds the byte in every lane. */
  predicate Loaded(j: Job, c: Cpu, sz: Size) {
    j.way == Set ==> Low(c.d0, sz) == Replicated(j.b, sz)
  }

  /** What a transfer does not touch, and what it counts. */
  predicate Moved(c: Cpu, t: Cpu) {
    t.pc == c.pc + 2 && t.d0 == c.d0 && t.d1 == c.d1 && t.d2 == c.d2 && t.moves == c.moves + 1 && !t.fault
  }

  lemma TransferUp(p: Program, s0: Cpu, c: Cpu, j: Job, k: int, sz: Size) returns (t: Cpu)
    requires Reaches(p, s0, c) && At(j, c, k) && k + Bytes(sz) <= j.n && j.way == Up
    requires Code(p.routine, c.pc) == Some(Transfer(j.way, sz))
    requires Allows(p.guard, j) && Fits(p.guard, j, k, sz)
    ensures t == Exec(p.guard, Transfer(j.way, sz), c)
    ensures Reaches(p, s0, t) && At(j, t, k + Bytes(sz)) && Moved(c, t)
    ensures sz == B ==> t.zf == (j.m[j.s + k] == 0)
  {
    hide Reaches, Code, Load, Store, Low, Wrap, Progress, Replicated, AlignedLoad, AlignedStore, Exec;
    ProgressGrows(j, k, sz);
    t := StepMoveUp(p, s0, c, sz);
    if sz == B {
      SourceByte(j, k);
    }
  }

  lemma TransferDown(p: Program, s0: Cpu, c: Cpu, j: Job, k: int, sz: Size) returns (t: Cpu)
    requires Reaches(p, s0, c) && At(j, c, k) && k + Bytes(sz) <= j.n && j.way == Down
    requires Code(p.routine, c.pc) == Some(Transfer(j.way, sz))
    requires Allows(p.guard, j) && Fits(p.guard, j, k, sz)
    ensures t == Exec(p.guard, Transfer(j.way, sz), c)
    ensures Reaches(p, s0, t) && At(j, t, k + Bytes(sz)) && Moved(c, t)
  {
    hide Reaches, Code, Load, Store, Low, Wrap, Progress, Replicated, AlignedLoad, AlignedStore, Exec;
    ProgressGrows(j, k, sz);
    t := StepMoveDown(p, s0, c, sz);
  }

  lemma TransferSet(p: Program, s0: Cpu, c: Cpu, j: Job, k: int, sz: Size) returns (t: Cpu)
    requires Reaches(p, s0, c) && At(j, c, k) && k + Bytes(sz) <= j.n && j.way == Set
    requires Code(p.routine, c.pc) == Some(Transfer(j.way, sz))
    requires Allows(p.guard, j) && Fits(p.guard, j, k, sz) && Loaded(j, c, sz)
    ensures t == Exec(p.guard, Transfer(j.way, sz), c)
    ensures Reaches(p, s0, t) && At(j, t, k + Bytes(sz)) && Moved(c, t)
  {
    hide Reaches, Code, Load, Store, Low, Wrap, Progress, Replicated, AlignedLoad, AlignedStore, Exec;
    ProgressGrows(j, k, sz);
    t := StepStoreUp(p, s0, c, sz);
  }

  /** The next chunk of a job, whatever its kind. */
  lemma StepTransfer(p: Program, s0: Cpu, c: Cpu, j: Job, k: int, sz: Size) returns (t: Cpu)
    requires Reaches(p, s0, c) && At(j, c, k) && k + Bytes(sz) <= j.n
    requires Code(p.routine, c.pc) == Some(Transfer(j.way, sz))
    requires Allows(p.guard, j) && Fits(p.guard, j, k, sz) && Loaded(j, c, sz)
    ensures Reaches(p, s0, t) && At(j, t, k + Bytes(sz)) && Moved(c, t)
  {
    hide Reaches, Code, Low, Wrap, Progress, Replicated, Allows, Fits, Bytes, Moved, At, Transfer, Exec;
    match j.way
    case Up => t := TransferUp(p, s0, c, j, k, sz);
    case Down => t := TransferDown(p, s0, c, j, k, sz);
    case Set => t := TransferSet(p, s0, c, j, k, sz);
  }

  // ---------- the code of the shared loops ----------

  /** One byte a turn, as many turns as the low word of d2 says, and one more. */
  predicate IsDbfLoop(code: Routine, at: int, way: Way) {
    && Code(code, at) == Some(Transfer(way, B))
    && Code(code, at + 2) == Some(Dbf(D2, -4))
  }

  /** One byte a turn until d2 is zero. */
  predicate IsByteLoop(code: Routine, at: int, way: Way) {
    && Code(code, at) == Some(Transfer(way, B))
    && Code(code, at + 2) == Some(Subq(L, 1, D2))
    && Code(code, at + 4) == Some(Bcc(NE, -6))
  }

  /** As many bytes as the low word of d2 says, none for zero. */
  predicate IsWordTail(code: Routine, at: int, way: Way) {
    && Code(code, at) == Some(Subq(W, 1, D2))
    && Code(code, at + 2) == Some(Bcc(CS, 6))
    && IsDbfLoop(code, at + 4, way)
  }

  /** Four bytes a turn, until d2 is zero, or until it borrows in the 68020 versions. */
  predicate IsLongLoop(code: Routine, at: int, way: Way, again: Cond) {
    && Code(code, at) == Some(Transfer(way, L))
    && Code(code, at + 2) == Some(Subq(L, 4, D2))
    && Code(code, at + 4) == Some(Bcc(again, -6))
  }

  /** The count split into a multiple of four in d2 and the rest in d1. */
  predicate IsSplit(code: Routine, at: int) {
    && Code(code, at) == Some(Moveq(3, D1))
    && Code(code, at + 2) == Some(And(L, D(D2), D1))
    && Code(code, at + 4) == Some(Sub(L, D(D1), D2))
  }

  /** The split, the multiple of four in longs, and the rest as the low word of d2. */
  predicate IsLongsThenTail(code: Routine, at: int, way: Way) {
    && IsSplit(code, at)
    && IsLongLoop(code, at + 6, way, NE)
    && Code(code, at + 12) == Some(Move(W, D(D1), D(D2)))
    && IsWordTail(code, at + 14, way)
  }

  /** The zero to three bytes left when d2 is four less than their number. */
  predicate IsBiasedTail(code: Routine, at: int, way: Way) {
    && Code(code, at) == Some(Addq(L, 3, D2))
    && Code(code, at + 2) == Some(Bcc(CC, 6))
    && IsDbfLoop(code, at + 4, way)
  }

  // ---------- running them ----------

  /** The byte an ascending copy reads next is still the original one. */
  lemma SourceByte(j: Job, k: int)
    requires Sound(j) && j.way == Up && 0 <= k < j.n
    ensures Load(Progress(j, k), j.s + k, B) == j.m[j.s + k]
  {
  }

  lemma BytesFit(g: Guard, j: Job, k: int)
    ensures Fits(g, j, k, B)
  {
  }

  /** The fill value sits in d0, which the loops do not touch. */
  lemma StillLoaded(j: Job, c: Cpu, t: Cpu, sz: Size)
    requires Loaded(j, c, sz) && t.d0 == c.d0
    ensures Loaded(j, t, sz)
  {
  }

  /** The byte loop does the d2 bytes left, for any 32-bit count but zero. */
  lemma ByteLoop(p: Program, s0: Cpu, c: Cpu, j: Job, k: int) returns (t: Cpu)
    requires Reaches(p, s0, c) && At(j, c, k) && c.d2 == j.n - k > 0
    requires IsByteLoop(p.routine, c.pc, j.way)
    requires Allows(p.guard, j) && Loaded(j, c, B)
    ensures Reaches(p, s0, t) && At(j, t, j.n)
    ensures t.pc == c.pc + 6 && t.d0 == c.d0 && t.moves == c.moves + (j.n - k)
  {
    hide Reaches, Code, Progress, Replicated, Wrap, Merge, Low, Allows, Transfer, Fits, Loaded, Sum, Difference;
    var i := k;
    t := c;
    while t.pc == c.pc
      invariant Reaches(p, s0, t) && At(j, t, i) && t.d2 == j.n - i && t.d0 == c.d0
      invariant t.moves == c.moves + (i - k)
      invariant t.pc == if i == j.n then c.pc + 6 else c.pc
      decreases j.n - i
    {
      BytesFit(p.guard, j, i);
      StillLoaded(j, c, t, B);
      t := StepTransfer(p, s0, t, j, i, B);
      t := StepSubq(p, s0, t, 1, D2);
      t := StepBcc(p, s0, t, NE, -6);
      i := i + 1;
    }
  }

  /** The counted byte loop finishes the job when the low word of d2 is one less than the bytes left. */
  lemma DbfLoop(p: Program, s0: Cpu, c: Cpu, j: Job, k: int) returns (t: Cpu)
    requires Reaches(p, s0, c) && At(j, c, k) && Low(c.d2, W) == j.n - k - 1
    requires IsDbfLoop(p.routine, c.pc, j.way)
    requires Allows(p.guard, j) && Loaded(j, c, B)
    ensures Reaches(p, s0, t) && At(j, t, j.n)
    ensures t.pc == c.pc + 6 && t.d0 == c.d0 && t.moves == c.moves + (j.n - k)
  {
    hide Reaches, Code, Progress, Replicated, Wrap, Merge, Low, Allows, Transfer, Fits, Loaded, Sum, Difference;
    var i := k;
    t := c;
    while t.pc == c.pc
      invariant Reaches(p, s0, t) && At(j, t, i) && t.d0 == c.d0
      invariant i < j.n ==> t.pc == c.pc && Low(t.d2, W) == j.n - i - 1
      invariant i == j.n ==> t.pc == c.pc + 6
      invariant t.moves == c.moves + (i - k)
      decreases j.n - i
    {
      BytesFit(p.guard, j, i);
      StillLoaded(j, c, t, B);
      t := StepTransfer(p, s0, t, j, i, B);
      MergedLow(t.d2, Difference(Low(t.d2, W), 1, W));
      t := StepDbf(p, s0, t, D2, -4);
      i := i + 1;
    }
  }

  /** Writing the low word of a register: that word is the new value. */
  lemma MergedLow(x: u32, v: u32)
    requires v < 0x1_0000
    ensures Low(Merge(x, W, v), W) == v
  {
    var q := x / 0x1_0000;
    assert x - x % 0x1_0000 == 0x1_0000 * q;
  }

  /** The tail finishes the job when the low word of d2 is exactly the number of bytes left, which may
      be none. */
  lemma WordCountedTail(p: Program, s0: Cpu, c: Cpu, j: Job, k: int) returns (t: Cpu)
    requires Reaches(p, s0, c) && At(j, c, k) && Low(c.d2, W) == j.n - k
    requires IsWordTail(p.routine, c.pc, j.way)
    requires Allows(p.guard, j) && Loaded(j, c, B)
    ensures Reaches(p, s0, t) && At(j, t, j.n)
    ensures t.pc == c.pc + 10 && t.d0 == c.d0 && t.moves == c.moves + (j.n - k)
  {
    hide Reaches, Code, Progress, Replicated, Wrap, Merge, Low, Allows, Transfer, Fits, Loaded, Sum, Difference;
    t := StepSubqW(p, s0, c, D2);
    MergedLow(c.d2, Difference(Low(c.d2, W), 1, W));
    t := StepBcc(p, s0, t, CS, 6);
    if k < j.n {
      StillLoaded(j, c, t, B);
      t := DbfLoop(p, s0, t, j, k);
    }
  }

  /** The count is split into longs and rest. */
  lemma SplitCount(p: Program, s0: Cpu, c: Cpu) returns (t: Cpu)
    requires Reaches(p, s0, c) && !c.fault
    requires IsSplit(p.routine, c.pc)
    ensures Reaches(p, s0, t)
    ensures t.d1 == c.d2 % 4 && t.d2 + t.d1 == c.d2
    ensures t == c.(pc := c.pc + 6, d1 := t.d1, d2 := t.d2, cf := t.cf, nf := t.nf, zf := t.zf)
  {
    hide Reaches, Code, Wrap, Merge, Low, BitAnd, Sum, Difference;
    t := StepMoveq(p, s0, c, 3, D1);
    t := StepAnd(p, s0, t, L, D(D2), D1);
    BitAndThree(c.d2);
    t := StepSub(p, s0, t, D(D1), D2);
  }

  /** The 68000 long loop, entered with a positive count, and the rest counted as a word. Both
      blocks are at even addresses by then. */
  lemma LongsThenTail(p: Program, s0: Cpu, c: Cpu, j: Job, k: int) returns (t: Cpu)
    requires Reaches(p, s0, c) && At(j, c, k) && c.d2 == j.n - k >= 4
    requires IsLongsThenTail(p.routine, c.pc, j.way)
    requires Allows(p.guard, j) && Fits(p.guard, j, k, L)
    requires Loaded(j, c, L) && Loaded(j, c, B)
    ensures Reaches(p, s0, t) && At(j, t, j.n)
    ensures t.pc == c.pc + 24 && t.d0 == c.d0
  {
    hide Reaches, Code, Progress, Replicated, Wrap, Merge, Low, Allows, Transfer, Fits, Loaded, Sum, Difference;
    t := SplitCount(p, s0, c);
    StillLoaded(j, c, t, L);
    t := LongLoop(p, s0, t, j, k);
    var rest := (j.n - k) % 4;
    MergedLow(t.d2, rest);
    t := StepMoveToD(p, s0, t, W, D(D1), D2);
    StillLoaded(j, c, t, B);
    t := WordCountedTail(p, s0, t, j, j.n - rest);
  }

  /** The long loop does d2 bytes, a positive multiple of four. */
  lemma LongLoop(p: Program, s0: Cpu, c: Cpu, j: Job, k: int) returns (t: Cpu)
    requires Reaches(p, s0, c) && At(j, c, k) && 0 < c.d2 <= j.n - k && c.d2 % 4 == 0
    requires IsLongLoop(p.routine, c.pc, j.way, NE)
    requires Allows(p.guard, j) && Fits(p.guard, j, k, L) && Loaded(j, c, L)
    ensures Reaches(p, s0, t) && At(j, t, k + c.d2)
    ensures t.pc == c.pc + 6 && t.d0 == c.d0 && t.d1 == c.d1 && t.d2 == 0
  {
    hide Reaches, Code, Progress, Replicated, Wrap, Merge, Low, Fits, Allows, Transfer, Loaded, Sum, Difference;
    var i := k;
    t := c;
    while t.pc == c.pc
      invariant Reaches(p, s0, t) && At(j, t, i) && i + t.d2 == k + c.d2 && t.d2 % 4 == 0
      invariant t.d0 == c.d0 && t.d1 == c.d1
      invariant Fits(p.guard, j, i, L)
      invariant t.pc == if t.d2 == 0 then c.pc + 6 else c.pc
      decreases t.d2
    {
      FitsAgain(p.guard, j, i);
      StillLoaded(j, c, t, L);
      t := StepTransfer(p, s0, t, j, i, L);
      t := StepSubq(p, s0, t, 4, D2);
      t := StepBcc(p, s0, t, NE, -6);
      i := i + 4;
    }
  }

  lemma FitsAgain(g: Guard, j: Job, k: int)
    requires Fits(g, j, k, L)
    ensures Fits(g, j, k + 4, L)
  {
    assert j.way == Down ==> Target(j, k + 4, 4) == Target(j, k, 4) - 4;
    assert j.way != Down ==> Target(j, k + 4, 4) == Target(j, k, 4) + 4;
  }

  /** The 68020 long loop keeps d2 four less than the bytes left, and ends with fewer than four of
      them, d2 then being their number less four modulo 2^32. */
  lemma BiasedLongLoop(p: Program, s0: Cpu, c: Cpu, j: Job, k: int) returns (t: Cpu, i: int)
    requires Reaches(p, s0, c) && At(j, c, k) && c.d2 == j.n - k - 4 >= 0
    requires IsLongLoop(p.routine, c.pc, j.way, CC)
    requires Allows(p.guard, j) && Fits(p.guard, j, k, L) && Loaded(j, c, L)
    ensures Reaches(p, s0, t) && At(j, t, i) && j.n - 4 < i && t.d2 == Wrap(j.n - i - 4)
    ensures t.pc == c.pc + 6 && t.d0 == c.d0 && 4 * (t.moves - c.moves) == i - k
  {
    hide Reaches, Code, Progress, Replicated, Wrap, Merge, Low, Fits, Allows, Transfer, Loaded, Sum, Difference;
    i := k;
    t := c;
    while t.pc == c.pc
      invariant Reaches(p, s0, t) && At(j, t, i) && t.d2 == Wrap(j.n - i - 4)
      invariant t.d0 == c.d0 && 4 * (t.moves - c.moves) == i - k
      invariant Fits(p.guard, j, i, L)
      invariant t.pc == if j.n - i < 4 then c.pc + 6 else c.pc
      decreases j.n - i
    {
      FitsAgain(p.guard, j, i);
      StillLoaded(j, c, t, L);
      t := StepTransfer(p, s0, t, j, i, L);
      t := StepSubq(p, s0, t, 4, D2);
      t := StepBcc(p, s0, t, CC, -6);
      i := i + 4;
    }
  }

  /** The 68020 tail finishes the job from there. */
  lemma BiasedTail(p: Program, s0: Cpu, c: Cpu, j: Job, k: int) returns (t: Cpu)
    requires Reaches(p, s0, c) && At(j, c, k) && j.n - k < 4 && c.d2 == Wrap(j.n - k - 4)
    requires IsBiasedTail(p.routine, c.pc, j.way)
    requires Allows(p.guard, j) && Loaded(j, c, B)
    ensures Reaches(p, s0, t) && At(j, t, j.n)
    ensures t.pc == c.pc + 10 && t.d0 == c.d0 && t.moves == c.moves + (j.n - k)
  {
    hide Reaches, Code, Progress, Replicated, Wrap, Merge, Low, Allows, Transfer, Fits, Loaded, Sum, Difference;
    t := StepAddq(p, s0, c, 3, D2);
    t := StepBcc(p, s0, t, CC, 6);
    if k < j.n {
      StillLoaded(j, c, t, B);
      t := DbfLoop(p, s0, t, j, k);
    }
  }
}
