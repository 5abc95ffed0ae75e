/** The block routines of both processor versions together: their agreement, and memmove as the
    macro builds it from the two copies. */
module Memmove {
  import opened Words
  import opened M68k
  import opened StringCode
  import opened M68kRuns
  import opened Blocks
  import opened Transfers
  import opened BlockCopies
  import opened BlockFills

  /** Which of the two versions is compiled in. */
  datatype Family = M68000 | M68020

  function CopyRoutine(f: Family, way: Way): Routine {
    match (f, way)
    case (M68000, Up) => Memcpy000
    case (M68000, Down) => MemcpyDesc000
    case (M68000, Set) => Memset000
    case (M68020, Up) => Memcpy020
    case (M68020, Down) => MemcpyDesc020
    case (M68020, Set) => Memset020
  }

  /** The alignment each version claims: the 68000 must not touch an odd address with a word or a
      long; the 68020 version aligns every store to its size, and loads as it must. */
  function Claim(f: Family): Alignment {
    match f
    case M68000 => EvenAddresses
    case M68020 => AlignedStores
  }

  /** A guard the version runs under: its own claim, or no alignment check at all. */
  predicate Suits(f: Family, g: Guard) {
    g.align == AnyAddress || g.align == Claim(f)
  }

  /** The memory and the result a block job must end with. */
  function JobDone(j: Job): seq<byte>
    requires Sound(j)
  {
    if j.way == Set then Filled(j.m, j.d, j.b, j.n) else Copied(j.m, j.d, j.s, j.n)
  }

  predicate Called(j: Job, s: Cpu) {
    if j.way == Set then EnteredFill(j, s) else Entered(j, s)
  }

  /** Every block routine of both versions does its job and returns the start of the destination. */
  lemma BlockRuns(f: Family, p: Program, s: Cpu, j: Job) returns (t: Cpu)
    requires p.routine == CopyRoutine(f, j.way) && Called(j, s)
    requires Allows(p.guard, j) && Suits(f, p.guard)
    ensures Finishes(p, s, t) && t.mem == JobDone(j) && t.d0 == Wrap(j.d)
  {
    hide Finishes, Wrap, Copied, Filled, Allows, Progress;
    match (f, j.way)
    case (M68000, Up) => t := Memcpy000Runs(p, s, j);
    case (M68000, Down) => t := MemcpyDesc000Runs(p, s, j);
    case (M68000, Set) => t := Memset000Runs(p, s, j);
    case (M68020, Up) => t := Memcpy020Runs(p, s, j);
    case (M68020, Down) => t := MemcpyDesc020Runs(p, s, j);
    case (M68020, Set) => t := Memset020Runs(p, s, j);
  }

  /** The two versions are observationally equal: started alike, they end with the same memory and
      the same result, whatever the other registers hold. */
  lemma VersionsAgree(p: Program, q: Program, s: Cpu, s': Cpu, j: Job, t: Cpu, t': Cpu)
    requires p.routine == CopyRoutine(M68000, j.way) && q.routine == CopyRoutine(M68020, j.way)
    requires Called(j, s) && Called(j, s')
    requires Allows(p.guard, j) && Suits(M68000, p.guard) && Allows(q.guard, j) && Suits(M68020, q.guard)
    requires Finishes(p, s, t) && Finishes(q, s', t')
    ensures t.mem == t'.mem && t.d0 == t'.d0
  {
    hide Finishes, Called, Allows, Suits, JobDone, Wrap;
    var u := BlockRuns(M68000, p, s, j);
    var u' := BlockRuns(M68020, q, s', j);
    FinishesOnce(p, s, t, u);
    FinishesOnce(q, s', t', u');
  }

  /** The job memmove(d, s, n) gives to one of the two copies. */
  function MoveJob(m: seq<byte>, d: u32, s: u32, n: u32): Job {
    Job(if d <= s then Up else Down, m, d, s, n, 0)
  }

  /** The registers as the macro loads them: the ascending copy gets the starts of the blocks, the
      descending one their ends. */
  predicate MoveCalled(c: Cpu, d: u32, s: u32, n: u32) {
    && c.pc == 0 && !c.fault && c.d2 == n
    && (if d <= s then c.a0 == d && c.a1 == s else c.a0 == Wrap(d + n) && c.a1 == Wrap(s + n))
  }

  /** memmove is exact for every overlap: the destination gets the bytes the source had before,
      nothing else changes, and the destination is returned. */
  lemma MemmoveExact(f: Family, p: Program, c: Cpu, d: u32, s: u32, n: u32) returns (t: Cpu)
    requires d + n <= |c.mem| <= TWO32 && s + n <= |c.mem|
    requires MoveCalled(c, d, s, n)
    requires var j := MoveJob(c.mem, d, s, n);
      p.routine == CopyRoutine(f, j.way) && Allows(p.guard, j) && Suits(f, p.guard)
    ensures Finishes(p, c, t) && t.d0 == d
    ensures |t.mem| == |c.mem|
    ensures forall i :: 0 <= i < |c.mem| ==> t.mem[i] == if d <= i < d + n then c.mem[s + (i - d)] else c.mem[i]
  {
    hide Finishes, Allows, Suits, Progress;
    var j := MoveJob(c.mem, d, s, n);
    ProgressStarts(j);
    t := BlockRuns(f, p, c, j);
  }
}
