/** The two copying directions in both processor versions: every run finishes, without a refused
    access, with exactly the n bytes copied. */
module BlockCopies {
  import opened Options
  import opened Words
  import opened M68k
  import opened StringCode
  import opened M68kRuns
  import opened Blocks
  import opened Transfers

  /** The machine is about to execute the first instruction of a block routine for job j. */
  predicate Entered(j: Job, s: Cpu) {
    At(j, s, 0) && s.pc == 0 && s.d2 == j.n
  }

  /** The address between what is done and what is left. */
  function Edge(j: Job, k: int): int {
    if j.way == Down then j.d + j.n - k else j.d + k
  }

  // ---------- 68020 and later ----------

  /** What follows once the edge is even: a word move if the edge is not 4-aligned, the long loop
      unless that used up the count, and the tail. The register r holds the edge address halved, so
      the bit shifted out says whether the word move is due. */
  predicate IsAlignedRest020(code: Routine, at: int, way: Way, r: DReg) {
    && Code(code, at) == Some(Lsr1(r))
    && Code(code, at + 2) == Some(Bcc(CC, 6))
    && Code(code, at + 4) == Some(Transfer(way, W))
    && Code(code, at + 6) == Some(Subq(L, 2, D2))
    && Code(code, at + 8) == Some(Bcc(CS, 6))
    && IsLongLoop(code, at + 10, way, CC)
    && IsBiasedTail(code, at + 16, way)
  }

  lemma Fits020(g: Guard, j: Job, k: int, sz: Size)
    requires g.align != EvenAddresses && Edge(j, k) % Bytes(sz) == 0
    ensures Fits(g, j, k, sz)
  {
  }

  /** The word move that brings the edge to a multiple of four, when it is not at one. */
  lemma WordEdge020(p: Program, s0: Cpu, c: Cpu, j: Job, k: int, r: DReg) returns (t: Cpu, i: int)
    requires Reaches(p, s0, c) && At(j, c, k) && c.d2 == j.n - k - 4 >= 0 && r != D2
    requires IsAlignedRest020(p.routine, c.pc, j.way, r) && j.way != Set
    requires Edge(j, k) % 2 == 0 && GetD(c, r) % 2 == Edge(j, k) / 2 % 2
    requires Allows(p.guard, j) && p.guard.align != EvenAddresses
    ensures Reaches(p, s0, t) && At(j, t, i) && t.d2 == Wrap(j.n - i - 4) && (r != D0 ==> t.d0 == c.d0)
    ensures if j.n - i < 4 then t.pc == c.pc + 16 else t.pc == c.pc + 10 && Edge(j, i) % 4 == 0
    ensures 4 * (t.moves - c.moves) <= i - k + 2
  {
    hide Reaches, Code, Progress, Wrap, Merge, Low, Allows, Transfer, Fits, At, Edge, Sum, Difference;
    i := k;
    Running(j, c, k);
    t := StepLsr1(p, s0, c, r);
    t := StepBcc(p, s0, t, CC, 6);
    StillAt(j, c, t, k);
    if Edge(j, k) % 4 == 2 {
      t := WordMove020(p, s0, t, j, k);
      i := k + 2;
    }
  }

  /** Two bytes on from an edge that is not a multiple of four it is one. */
  lemma EdgeMoves(j: Job, k: int)
    requires Edge(j, k) % 4 == 2
    ensures Edge(j, k + 2) % 4 == 0 && Edge(j, k) % Bytes(W) == 0
  {
    var q := Edge(j, k) / 4;
    TwoTimes(Edge(j, k), 2 * q + 1);
    FourTimes(Edge(j, k + 2), if j.way == Down then q else q + 1);
  }

  /** The word move and the count after it, which may have run out. */
  lemma WordMove020(p: Program, s0: Cpu, c: Cpu, j: Job, k: int) returns (t: Cpu)
    requires Reaches(p, s0, c) && At(j, c, k) && c.d2 == j.n - k - 4 >= 0 && j.way != Set
    requires Code(p.routine, c.pc) == Some(Transfer(j.way, W))
    requires Code(p.routine, c.pc + 2) == Some(Subq(L, 2, D2)) && Code(p.routine, c.pc + 4) == Some(Bcc(CS, 6))
    requires Edge(j, k) % 4 == 2 && Allows(p.guard, j) && p.guard.align != EvenAddresses
    ensures Reaches(p, s0, t) && At(j, t, k + 2) && t.d2 == Wrap(j.n - (k + 2) - 4) && t.d0 == c.d0
    ensures t.pc == c.pc + (if j.n - (k + 2) < 4 then 12 else 6) && Edge(j, k + 2) % 4 == 0
    ensures t.moves == c.moves + 1
  {
    hide Reaches, Code, Progress, Wrap, Merge, Low, Allows, Transfer, Fits, At, Edge, Sum, Difference;
    Running(j, c, k);
    EdgeMoves(j, k);
    Fits020(p.guard, j, k, W);
    t := StepTransfer(p, s0, c, j, k, W);
    var u := t;
    t := StepSubq(p, s0, t, 2, D2);
    t := StepBcc(p, s0, t, CS, 6);
    StillAt(j, u, t, k + 2);
  }

  lemma AlignedRest020(p: Program, s0: Cpu, c: Cpu, j: Job, k: int, r: DReg) returns (t: Cpu)
    requires Reaches(p, s0, c) && At(j, c, k) && c.d2 == j.n - k - 4 >= 0 && r != D2
    requires IsAlignedRest020(p.routine, c.pc, j.way, r) && j.way != Set
    requires Edge(j, k) % 2 == 0 && GetD(c, r) % 2 == Edge(j, k) / 2 % 2
    requires Allows(p.guard, j) && p.guard.align != EvenAddresses
    ensures Reaches(p, s0, t) && At(j, t, j.n)
    ensures t.pc == c.pc + 26 && (r != D0 ==> t.d0 == c.d0)
    ensures 4 * (t.moves - c.moves) <= j.n - k + 11
  {
    hide Reaches, Code, Progress, Wrap, Merge, Low, Allows, Transfer, Fits, Sum, Difference;
    var i;
    t, i := WordEdge020(p, s0, c, j, k, r);
    if 4 <= j.n - i {
      Fits020(p.guard, j, i, L);
      t, i := BiasedLongLoop(p, s0, t, j, i);
    }
    t := BiasedTail(p, s0, t, j, i);
  }

  /** The byte move that makes the destination even, when it is odd. */
  lemma OddStart020(p: Program, s0: Cpu, c: Cpu, j: Job) returns (t: Cpu, k: int)
    requires p.routine == Memcpy020 && j.way == Up && Reaches(p, s0, c) && At(j, c, 0) && c.pc == 6
    requires c.d2 == j.n - 4 >= 0 && c.d0 == j.d
    requires Allows(p.guard, j)
    ensures Reaches(p, s0, t) && At(j, t, k) && t.d2 == Wrap(j.n - k - 4) && t.d0 == c.d0
    ensures if j.n - k < 4 then t.pc == 36 else t.pc == 20 && (j.d + k) % 2 == 0 && t.d1 == (j.d + k) / 2
    ensures 4 * (t.moves - c.moves) <= k + 3
  {
    hide Reaches, Progress, Merge, Wrap, Low, Allows, Fits, At, Sum, Difference;
    k := 0;
    Running(j, c, 0);
    t := StepHalve(p, s0, c, D(D0), D1, 8);
    StillAt(j, c, t, 0);
    if j.d % 2 == 1 {
      BytesFit(p.guard, j, 0);
      t := StepTransfer(p, s0, t, j, 0, B);
      var u := t;
      k := 1;
      t := StepSubq(p, s0, t, 1, D2);
      t := StepBcc(p, s0, t, CS, 18);
      if 4 <= j.n - 1 {
        t := StepAddq(p, s0, t, 1, D1);
      }
      StillAt(j, u, t, 1);
    }
  }

  lemma TailOfMemcpy020()
    ensures IsLongLoop(Memcpy020, 30, Up, CC) && IsBiasedTail(Memcpy020, 36, Up)
  {
  }

  lemma RestOfMemcpy020()
    ensures IsAlignedRest020(Memcpy020, 20, Up, D1) && IsBiasedTail(Memcpy020, 36, Up)
  {
    TailOfMemcpy020();
    hide IsLongLoop, IsBiasedTail;
  }

  /** The 68020 ascending copy. */
  lemma Memcpy020Runs(p: Program, s: Cpu, j: Job) returns (t: Cpu)
    requires p.routine == Memcpy020 && j.way == Up && Entered(j, s)
    requires Allows(p.guard, j) && p.guard.align != EvenAddresses
    ensures Finishes(p, s, t) && t.mem == Copied(j.m, j.d, j.s, j.n) && t.d0 == s.a0
    ensures 4 * (t.moves - s.moves) <= j.n + 14
  {
    hide Reaches, Progress, Merge, Wrap, Low, Allows, Fits, Copied, IsAlignedRest020, IsBiasedTail, Sum, Difference;
    RestOfMemcpy020();
    ReachesItself(p, s);
    t := StepMoveToD(p, s, s, L, A(A0), D0);
    t := StepSubq(p, s, t, 4, D2);
    t := StepBcc(p, s, t, CS, 30);
    var k := 0;
    if 4 <= j.n {
      t, k := OddStart020(p, s, t, j);
    }
    if 4 <= j.n - k {
      t := AlignedRest020(p, s, t, j, k, D1);
    } else {
      t := BiasedTail(p, s, t, j, k);
    }
    ProgressEnds(j);
  }

  /** The half of the end address serves the edge, before and after the byte move. */
  lemma EndEdges(j: Job, a: u32)
    requires j.way == Down && a % 2 == (j.d + j.n) % 2 && a / 2 % 2 == (j.d + j.n) / 2 % 2
    ensures if a % 2 == 0 then Edge(j, 0) % 2 == 0 && a / 2 % 2 == Edge(j, 0) / 2 % 2
      else Edge(j, 1) % 2 == 0 && a / 2 % 2 == Edge(j, 1) / 2 % 2
  {
    if a % 2 == 1 {
      TwoTimes(Edge(j, 1), (j.d + j.n) / 2);
    }
  }

  /** The byte move that makes the end of the destination even, when it is odd. The end address
      was halved before the move: below an odd address the half is the same. */
  lemma OddEnd020(p: Program, s0: Cpu, c: Cpu, j: Job) returns (t: Cpu, k: int)
    requires p.routine == MemcpyDesc020 && j.way == Down && Reaches(p, s0, c) && At(j, c, 0) && c.pc == 4
    requires c.d2 == j.n - 4 >= 0
    requires Allows(p.guard, j)
    ensures Reaches(p, s0, t) && At(j, t, k) && t.d2 == Wrap(j.n - k - 4)
    ensures if j.n - k < 4 then t.pc == 32 else t.pc == 16 && Edge(j, k) % 2 == 0 && t.d0 % 2 == Edge(j, k) / 2 % 2
    ensures 4 * (t.moves - c.moves) <= k + 3
  {
    hide Reaches, Progress, Merge, Wrap, Low, Allows, Fits, At, Edge, Sum, Difference;
    k := 0;
    Running(j, c, 0);
    EndAddress(j, c);
    EndEdges(j, c.a0);
    t := StepHalve(p, s0, c, A(A0), D0, 6);
    StillAt(j, c, t, 0);
    if c.a0 % 2 == 1 {
      BytesFit(p.guard, j, 0);
      t := StepTransfer(p, s0, t, j, 0, B);
      var u := t;
      k := 1;
      t := StepSubq(p, s0, t, 1, D2);
      t := StepBcc(p, s0, t, CS, 16);
      StillAt(j, u, t, 1);
    }
  }

  /** A descending copy starts from the end of the blocks, which may be the end of the address
      space and then reads as address 0. */
  lemma EndAddress(j: Job, c: Cpu)
    requires At(j, c, 0) && j.way == Down
    ensures c.a0 % 2 == (j.d + j.n) % 2 && c.a1 % 2 == (j.s + j.n) % 2
    ensures c.a0 / 2 % 2 == (j.d + j.n) / 2 % 2
  {
  }

  lemma TailOfMemcpyDesc020()
    ensures IsLongLoop(MemcpyDesc020, 26, Down, CC) && IsBiasedTail(MemcpyDesc020, 32, Down)
  {
  }

  lemma RestOfMemcpyDesc020()
    ensures IsAlignedRest020(MemcpyDesc020, 16, Down, D0) && IsBiasedTail(MemcpyDesc020, 32, Down)
  {
    TailOfMemcpyDesc020();
    hide IsLongLoop, IsBiasedTail;
  }

  /** The 68020 descending copy. */
  lemma MemcpyDesc020Runs(p: Program, s: Cpu, j: Job) returns (t: Cpu)
    requires p.routine == MemcpyDesc020 && j.way == Down && Entered(j, s)
    requires Allows(p.guard, j) && p.guard.align != EvenAddresses
    ensures Finishes(p, s, t) && t.mem == Copied(j.m, j.d, j.s, j.n) && t.d0 == Wrap(j.d)
    ensures 4 * (t.moves - s.moves) <= j.n + 14
  {
    hide Reaches, Progress, Merge, Wrap, Low, Allows, Fits, Copied, IsAlignedRest020, IsBiasedTail, Sum, Difference;
    RestOfMemcpyDesc020();
    ReachesItself(p, s);
    t := StepSubq(p, s, s, 4, D2);
    t := StepBcc(p, s, t, CS, 28);
    var k := 0;
    if 4 <= j.n {
      t, k := OddEnd020(p, s, t, j);
    }
    if 4 <= j.n - k {
      t := AlignedRest020(p, s, t, j, k, D0);
    } else {
      t := BiasedTail(p, s, t, j, k);
    }
    t := StepMoveToD(p, s, t, L, A(A0), D0);
    ProgressEnds(j);
  }

  // ---------- 68000 and 68010 ----------

  /** What follows once the destination is even: for an odd source, the 16-bit tail if the count fits
      it and a byte loop on the full count if not; for an even one, longs and their tail. */
  predicate IsRest000(code: Routine, at: int, way: Way) {
    && Code(code, at) == Some(Cmp(L, Imm(0x1_0000), D2))
    && Code(code, at + 6) == Some(Bcc(CS, 22))
    && IsByteLoop(code, at + 8, way)
    && Code(code, at + 14) == Some(Bcc(RA, 24))
    && IsLongsThenTail(code, at + 16, way)
  }

  /** With an odd source every byte goes alone; the 16-bit counter serves only counts below 65536. */
  lemma OddSource000(p: Program, s0: Cpu, c: Cpu, j: Job, k: int) returns (t: Cpu)
    requires Reaches(p, s0, c) && At(j, c, k) && c.d2 == j.n - k > 0 && j.way != Set
    requires IsRest000(p.routine, c.pc, j.way) && Allows(p.guard, j)
    ensures Reaches(p, s0, t) && At(j, t, j.n)
    ensures t.pc == c.pc + 40 && t.d0 == c.d0
  {
    hide Reaches, Code, Progress, Merge, Wrap, Allows, Fits, At, Transfer, Low, Sum, Difference;
    Running(j, c, k);
    t := StepCmp(p, s0, c, 0x1_0000, D2);
    t := StepBcc(p, s0, t, CS, 22);
    StillAt(j, c, t, k);
    if c.d2 < 0x1_0000 {
      t := WordCountedTail(p, s0, t, j, k);
    } else {
      t := ByteLoop(p, s0, t, j, k);
      var u := t;
      Running(j, t, j.n);
      t := StepBcc(p, s0, t, RA, 24);
      StillAt(j, u, t, j.n);
    }
  }

  lemma Fits000(g: Guard, j: Job, k: int, sz: Size)
    requires g.align != AlignedStores && sz != W && j.way != Set
    requires sz == L ==> Edge(j, k) % 2 == 0 && (Edge(j, k) - j.d + j.s) % 2 == 0
    ensures Fits(g, j, k, sz)
  {
    if sz == L && j.way == Down {
      FourLess(Edge(j, k));
      FourLess(Edge(j, k) - j.d + j.s);
    }
  }

  /** The address registers tell the parity of both edges. */
  lemma Edges(j: Job, c: Cpu, k: int)
    requires At(j, c, k) && j.way != Set
    ensures c.a0 % 2 == Edge(j, k) % 2 && c.a1 % 2 == (Edge(j, k) - j.d + j.s) % 2
  {
    hide Progress;
    WrapAligned(Edge(j, k));
    WrapAligned(Edge(j, k) - j.d + j.s);
  }

  lemma EdgeMovesOne(j: Job)
    ensures Edge(j, 0) % 2 == 1 ==> Edge(j, 1) % 2 == 0
  {
    var q := Edge(j, 0) / 2;
    if Edge(j, 0) % 2 == 1 {
      TwoTimes(Edge(j, 1), if j.way == Down then q else q + 1);
    }
  }

  /** Both edges of the destination being even, the source decides between longs and bytes. */
  lemma Rest000(p: Program, s0: Cpu, c: Cpu, j: Job, k: int, at: int) returns (t: Cpu)
    requires Reaches(p, s0, c) && At(j, c, k) && c.d2 == j.n - k >= 4 && j.way != Set
    requires IsRest000(p.routine, at, j.way) && Allows(p.guard, j) && p.guard.align != AlignedStores
    requires Edge(j, k) % 2 == 0
    requires c.pc == if (Edge(j, k) - j.d + j.s) % 2 == 0 then at + 16 else at
    ensures Reaches(p, s0, t) && At(j, t, j.n) && t.pc == at + 40 && t.d0 == c.d0
  {
    hide Reaches, Code, Progress, Allows, Fits, At, IsLongsThenTail;
    if (Edge(j, k) - j.d + j.s) % 2 == 0 {
      Fits000(p.guard, j, k, L);
      t := LongsThenTail(p, s0, c, j, k);
    } else {
      t := OddSource000(p, s0, c, j, k);
    }
  }

  lemma TailOfMemcpy000()
    ensures IsWordTail(Memcpy000, 58, Up)
  {
  }

  lemma LongsOfMemcpy000()
    ensures IsLongsThenTail(Memcpy000, 44, Up) && IsWordTail(Memcpy000, 58, Up)
  {
    TailOfMemcpy000();
    hide IsWordTail;
  }

  lemma RestOfMemcpy000()
    ensures IsRest000(Memcpy000, 28, Up) && IsLongsThenTail(Memcpy000, 44, Up) && IsWordTail(Memcpy000, 58, Up)
  {
    LongsOfMemcpy000();
    hide IsLongsThenTail, IsWordTail;
  }

  /** Brings the destination to an even address, with one byte move if it is odd. */
  lemma OddStart000(p: Program, s0: Cpu, c: Cpu, j: Job) returns (t: Cpu, k: int)
    requires p.routine == Memcpy000 && j.way == Up && Reaches(p, s0, c) && At(j, c, 0) && c.pc == 10
    requires c.d2 == j.n >= 16 && c.d0 == c.a0
    requires Allows(p.guard, j)
    ensures Reaches(p, s0, t) && At(j, t, k) && t.d2 == j.n - k && t.d0 == c.d0
    ensures t.pc == 20 && 0 <= k <= 1 && Edge(j, k) % 2 == 0
  {
    hide Reaches, Progress, Merge, Wrap, Allows, Fits, At, Sum, Difference, Edge;
    k := 0;
    Running(j, c, 0);
    Edges(j, c, 0);
    EdgeMovesOne(j);
    t := StepMoveq(p, s0, c, 1, D1);
    t := StepParity(p, s0, t, D(D0), D1, c.d0);
    t := StepBcc(p, s0, t, EQ, 4);
    StillAt(j, c, t, 0);
    if c.a0 % 2 == 1 {
      BytesFit(p.guard, j, 0);
      t := StepTransfer(p, s0, t, j, 0, B);
      var u := t;
      k := 1;
      t := StepSubq(p, s0, t, 1, D2);
      StillAt(j, u, t, 1);
    }
  }

  /** The 68000 ascending copy. */
  lemma Memcpy000Runs(p: Program, s: Cpu, j: Job) returns (t: Cpu)
    requires p.routine == Memcpy000 && j.way == Up && Entered(j, s)
    requires Allows(p.guard, j) && p.guard.align != AlignedStores
    ensures Finishes(p, s, t) && t.mem == Copied(j.m, j.d, j.s, j.n) && t.d0 == s.a0
  {
    hide Reaches, Progress, Merge, Wrap, Low, Allows, Fits, Copied;
    hide At, BitAnd, IsRest000, IsLongsThenTail, IsWordTail, Sum, Difference;
    RestOfMemcpy000();
    ReachesItself(p, s);
    Running(j, s, 0);
    t := StepMoveToD(p, s, s, L, A(A0), D0);
    t := StepCmp(p, s, t, 16, D2);
    t := StepBcc(p, s, t, CS, 48);
    StillAt(j, s, t, 0);
    if j.n < 16 {
      t := WordCountedTail(p, s, t, j, 0);
    } else {
      var k;
      t, k := OddStart000(p, s, t, j);
      var u := t;
      Running(j, u, k);
      t := StepMoveToD(p, s, t, L, A(A1), D1);
      t := StepParity(p, s, t, Imm(1), D1, u.a1);
      t := StepBcc(p, s, t, EQ, 16);
      StillAt(j, u, t, k);
      Edges(j, u, k);
      t := Rest000(p, s, t, j, k, 28);
    }
    Running(j, t, j.n);
    ProgressEnds(j);
  }

  lemma TailOfMemcpyDesc000()
    ensures IsWordTail(MemcpyDesc000, 56, Down)
  {
  }

  lemma LongsOfMemcpyDesc000()
    ensures IsLongsThenTail(MemcpyDesc000, 42, Down) && IsWordTail(MemcpyDesc000, 56, Down)
  {
    TailOfMemcpyDesc000();
    hide IsWordTail;
  }

  lemma RestOfMemcpyDesc000()
    ensures IsRest000(MemcpyDesc000, 26, Down)
    ensures IsLongsThenTail(MemcpyDesc000, 42, Down) && IsWordTail(MemcpyDesc000, 56, Down)
  {
    LongsOfMemcpyDesc000();
    hide IsLongsThenTail, IsWordTail;
  }

  /** Brings the end of the destination to an even address, with one byte move if it is odd; d1 keeps
      the 1 that tests the source next. */
  lemma OddEnd000(p: Program, s0: Cpu, c: Cpu, j: Job) returns (t: Cpu, k: int)
    requires p.routine == MemcpyDesc000 && j.way == Down && Reaches(p, s0, c) && At(j, c, 0) && c.pc == 8
    requires c.d2 == j.n >= 16
    requires Allows(p.guard, j)
    ensures Reaches(p, s0, t) && At(j, t, k) && t.d2 == j.n - k && t.d1 == 1
    ensures t.pc == 20 && 0 <= k <= 1 && Edge(j, k) % 2 == 0
  {
    hide Reaches, Progress, Merge, Wrap, Allows, Fits, At, Sum, Difference, Edge;
    k := 0;
    Running(j, c, 0);
    Edges(j, c, 0);
    EdgeMovesOne(j);
    t := StepMoveq(p, s0, c, 1, D1);
    t := StepMoveToD(p, s0, t, L, A(A0), D0);
    t := StepParity(p, s0, t, D(D1), D0, c.a0);
    t := StepBcc(p, s0, t, EQ, 4);
    StillAt(j, c, t, 0);
    if c.a0 % 2 == 1 {
      BytesFit(p.guard, j, 0);
      t := StepTransfer(p, s0, t, j, 0, B);
      var u := t;
      k := 1;
      t := StepSubq(p, s0, t, 1, D2);
      StillAt(j, u, t, 1);
    }
  }

  /** The 68000 descending copy. */
  lemma MemcpyDesc000Runs(p: Program, s: Cpu, j: Job) returns (t: Cpu)
    requires p.routine == MemcpyDesc000 && j.way == Down && Entered(j, s)
    requires Allows(p.guard, j) && p.guard.align != AlignedStores
    ensures Finishes(p, s, t) && t.mem == Copied(j.m, j.d, j.s, j.n) && t.d0 == Wrap(j.d)
  {
    hide Reaches, Progress, Merge, Wrap, Low, Allows, Fits, Copied;
    hide At, BitAnd, IsRest000, IsLongsThenTail, IsWordTail, Sum, Difference;
    RestOfMemcpyDesc000();
    ReachesItself(p, s);
    Running(j, s, 0);
    t := StepCmp(p, s, s, 16, D2);
    t := StepBcc(p, s, t, CS, 48);
    StillAt(j, s, t, 0);
    if j.n < 16 {
      t := WordCountedTail(p, s, t, j, 0);
    } else {
      var k;
      t, k := OddEnd000(p, s, t, j);
      var u := t;
      Running(j, u, k);
      t := StepMoveToD(p, s, t, L, A(A1), D0);
      t := StepParity(p, s, t, D(D1), D0, u.a1);
      t := StepBcc(p, s, t, EQ, 16);
      StillAt(j, u, t, k);
      Edges(j, u, k);
      t := Rest000(p, s, t, j, k, 26);
    }
    Running(j, t, j.n);
    EndsAtStart(j, t);
    t := StepMoveToD(p, s, t, L, A(A0), D0);
    ProgressEnds(j);
  }

  /** A finished descending copy has a0 back at the start of the destination. */
  lemma EndsAtStart(j: Job, c: Cpu)
    requires At(j, c, j.n) && j.way == Down
    ensures c.a0 == Wrap(j.d)
  {
  }
}
