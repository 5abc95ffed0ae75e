/** memset in both processor versions. */
module BlockFills {
  import opened Words
  import opened M68k
  import opened StringCode
  import opened M68kRuns
  import opened Blocks
  import opened Transfers

  /** The machine is about to execute the first instruction of memset: a1 is free, and only the
      low byte of the fill counts. */
  predicate EnteredFill(j: Job, s: Cpu) {
    && Sound(j) && j.way == Set && s.mem == j.m && !s.fault
    && s.pc == 0 && s.a0 == j.d && s.d2 == j.n && s.d0 % 0x100 == j.b
  }

  lemma AtStart(j: Job, c: Cpu)
    requires Sound(j) && j.way == Set && c.mem == j.m && !c.fault && c.a0 == c.a1 == j.d
    ensures At(j, c, 0)
  {
    ProgressStarts(j);
  }

  /** Four lanes in a register are also two in its low word and one in its low byte. */
  lemma LanesLoaded(j: Job, c: Cpu, sz: Size)
    requires c.d0 == Replicated(j.b, L)
    ensures Loaded(j, c, sz)
  {
    var b: int := j.b;
    match sz
    case B =>
      LowByteIs(c.d0, 0x1_0101 * b, b);
    case W =>
      LowWordIs(c.d0, 0x101 * b, 0x101 * b);
    case L =>
  }

  // ---------- replicating the fill byte ----------

  lemma LowWordIs(v: int, q: int, r: int)
    requires v == 0x1_0000 * q + r && 0 <= r < 0x1_0000
    ensures v % 0x1_0000 == r
  {
  }

  lemma LowByteIs(v: int, q: int, r: int)
    requires v == 0x100 * q + r && 0 <= r < 0x100
    ensures v % 0x100 == r
  {
  }

  /** Shifting the low word of a register up by eight bits leaves b over zero in it. */
  lemma WordShiftedUp(x: u32, b: byte)
    requires x % 0x100 == b
    ensures Merge(x, W, Low(x, W) * 0x100 % 0x1_0000) % 0x1_0000 == b as int * 0x100
  {
    var w, q := Low(x, W), Low(x, W) / 0x100;
    LowOfWord(x);
    LowWordIs(w * 0x100, q, b as int * 0x100);
    MergedLow(x, w * 0x100 % 0x1_0000);
  }

  /** So does shifting the whole register. */
  lemma LongShiftedUp(x: u32, b: byte)
    requires x % 0x100 == b
    ensures Merge(x, L, x * 0x100 % 0x1_0000_0000) % 0x1_0000 == b as int * 0x100
  {
    var q, k := x / 0x100, x * 0x100 / 0x1_0000_0000;
    var v := x * 0x100 % 0x1_0000_0000;
    assert v == x * 0x100 - 0x1_0000_0000 * k;
    LowWordIs(v, q - 0x1_0000 * k, b as int * 0x100);
  }

  lemma LowOfWord(x: u32)
    ensures Low(x, W) % 0x100 == x % 0x100
  {
    var q := x / 0x1_0000;
    assert x == 0x100 * (0x100 * q) + Low(x, W);
  }

  /** Writing b below it makes two lanes. */
  lemma TwoLanes(u: u32, b: byte, y: u32)
    requires u % 0x1_0000 == b as int * 0x100 && y % 0x100 == b
    ensures Merge(u, B, y) % 0x1_0000 == Replicated(b, W)
  {
    var i: int, h := b, u / 0x1_0000;
    assert u == 0x100 * (0x100 * h + i);
    assert Merge(u, B, y) == 0x1_0000 * h + 0x101 * i;
  }

  /** Swapping the halves of x and writing its old low word below makes four lanes of two. */
  lemma FourLanes(x: u32, b: byte, y: u32)
    requires x % 0x1_0000 == Replicated(b, W) && y % 0x1_0000 == Replicated(b, W)
    ensures var swapped := x % 0x1_0000 * 0x1_0000 + x / 0x1_0000;
      Merge(swapped, W, y) == Replicated(b, L)
  {
    var i: int := b;
    var swapped := x % 0x1_0000 * 0x1_0000 + x / 0x1_0000;
    var low, high := 0x101 * i, x / 0x1_0000;
    assert swapped == 0x1_0000 * low + high;
    LowWordIs(swapped, low, high);
    assert Low(swapped, W) == high && Low(y, W) == low;
    hide Low;
  }

  /** What the replication leaves alone. */
  predicate OnlyData(c: Cpu, t: Cpu) {
    && t.mem == c.mem && t.a0 == c.a0 && t.a1 == c.a1 && t.moves == c.moves && t.fault == c.fault
  }

  /** Fills all four lanes of d0 with its low byte, working on the low word first. */
  lemma Replicate000(p: Program, s0: Cpu, c: Cpu, b: byte) returns (t: Cpu)
    requires p.routine == Memset000 && Reaches(p, s0, c) && !c.fault && c.pc == 22 && c.d0 % 0x100 == b
    ensures Reaches(p, s0, t) && OnlyData(c, t) && t.pc == 34 && t.d2 == c.d2
    ensures t.d0 == Replicated(b, L)
  {
    hide Reaches, Merge, Low, Wrap, Replicated, Sum, Difference;
    t := StepMoveToD(p, s0, c, B, D(D0), D1);
    LowByte(c.d1, c.d0);
    t := StepLsl8(p, s0, t, W, D0);
    WordShiftedUp(c.d0, b);
    TwoLanes(t.d0, b, t.d1);
    MergeOfLow(t.d0, B, t.d1);
    t := StepMoveToD(p, s0, t, B, D(D1), D0);
    t := Widen000(p, s0, t, b);
  }

  /** Doubles the two lanes of the low word into four. */
  lemma Widen000(p: Program, s0: Cpu, c: Cpu, b: byte) returns (t: Cpu)
    requires p.routine == Memset000 && Reaches(p, s0, c) && !c.fault && c.pc == 28
    requires c.d0 % 0x1_0000 == Replicated(b, W)
    ensures Reaches(p, s0, t) && OnlyData(c, t) && t.pc == 34 && t.d2 == c.d2
    ensures t.d0 == Replicated(b, L)
  {
    hide Reaches, Merge, Wrap, Replicated, Sum, Difference;
    t := StepMoveToD(p, s0, c, W, D(D0), D1);
    MergedLow(c.d1, Low(c.d0, W));
    t := StepSwap(p, s0, t, D0);
    FourLanes(c.d0, b, t.d1);
    MergeOfLow(t.d0, W, t.d1);
    t := StepMoveToD(p, s0, t, W, D(D1), D0);
  }

  lemma LowByte(x: u32, v: u32)
    ensures Merge(x, B, Low(v, B)) % 0x100 == v % 0x100
  {
  }

  lemma MergeOfLow(x: u32, sz: Size, v: u32)
    ensures Merge(x, sz, Low(v, sz)) == Merge(x, sz, v)
  {
  }

  // ---------- 68000 and 68010 ----------

  lemma TailOfMemset000()
    ensures IsWordTail(Memset000, 48, Set)
  {
  }

  lemma LongsOfMemset000()
    ensures IsLongsThenTail(Memset000, 34, Set) && IsWordTail(Memset000, 48, Set)
  {
    TailOfMemset000();
    hide IsWordTail;
  }

  /** Brings the address to an even one, with one byte store if it is odd. */
  lemma OddStart000(p: Program, s0: Cpu, c: Cpu, j: Job) returns (t: Cpu, k: int)
    requires p.routine == Memset000 && j.way == Set && Reaches(p, s0, c) && At(j, c, 0) && c.pc == 10
    requires c.d2 == j.n >= 16 && Allows(p.guard, j) && Loaded(j, c, B)
    ensures Reaches(p, s0, t) && At(j, t, k) && t.d2 == j.n - k && t.d0 == c.d0
    ensures t.pc == 22 && 0 <= k <= 1 && (j.d + k) % 2 == 0
  {
    hide Reaches, Progress, Merge, Wrap, Allows, Fits, At, Loaded, Sum, Difference;
    k := 0;
    Running(j, c, 0);
    Start(j, c);
    t := StepMoveToD(p, s0, c, L, A(A0), D1);
    t := StepParity(p, s0, t, Imm(1), D1, c.a0);
    t := StepBcc(p, s0, t, EQ, 4);
    StillAt(j, c, t, 0);
    if c.a0 % 2 == 1 {
      BytesFit(p.guard, j, 0);
      StillLoaded(j, c, t, B);
      t := StepTransfer(p, s0, t, j, 0, B);
      var u := t;
      k := 1;
      t := StepSubq(p, s0, t, 1, D2);
      StillAt(j, u, t, 1);
    }
  }

  lemma Start(j: Job, c: Cpu)
    requires At(j, c, 0) && j.way == Set
    ensures c.a0 == Wrap(j.d) && c.a1 == Wrap(j.d) && (0 < j.n ==> c.a0 == j.d)
  {
  }

  lemma Fits000(g: Guard, j: Job, k: int)
    requires g.align != AlignedStores && j.way == Set && (j.d + k) % 2 == 0
    ensures Fits(g, j, k, L)
  {
  }

  lemma ByteLoaded(j: Job, c: Cpu)
    requires c.d0 % 0x100 == j.b
    ensures Loaded(j, c, B)
  {
  }

  /** memset on the 68000. */
  lemma Memset000Runs(p: Program, s: Cpu, j: Job) returns (t: Cpu)
    requires p.routine == Memset000 && EnteredFill(j, s)
    requires Allows(p.guard, j) && p.guard.align != AlignedStores
    ensures Finishes(p, s, t) && t.mem == Filled(j.m, j.d, j.b, j.n) && t.d0 == s.a0
  {
    hide Reaches, Progress, Merge, Wrap, Low, Allows, Fits, Filled;
    hide At, Loaded, IsLongsThenTail, IsWordTail, Replicated, Sum, Difference;
    LongsOfMemset000();
    ReachesItself(p, s);
    t := StepMoveToA(p, s, s, A(A0), A1);
    t := StepCmp(p, s, t, 16, D2);
    t := StepBcc(p, s, t, CS, 38);
    AtStart(j, t);
    ByteLoaded(j, t);
    if j.n < 16 {
      t := WordCountedTail(p, s, t, j, 0);
    } else {
      t := LongFill000(p, s, t, j);
    }
    Running(j, t, j.n);
    KeepsStart(j, t);
    t := StepMoveToD(p, s, t, L, A(A1), D0);
    ProgressEnds(j);
  }

  /** A fill keeps its start in a1. */
  lemma KeepsStart(j: Job, c: Cpu)
    requires At(j, c, j.n) && j.way == Set && j.d < TWO32
    ensures c.a1 == j.d
  {
  }

  lemma LongFill000(p: Program, s0: Cpu, c: Cpu, j: Job) returns (t: Cpu)
    requires p.routine == Memset000 && j.way == Set && Reaches(p, s0, c) && At(j, c, 0) && c.pc == 10
    requires c.d2 == j.n >= 16 && Allows(p.guard, j) && c.d0 % 0x100 == j.b && p.guard.align != AlignedStores
    ensures Reaches(p, s0, t) && At(j, t, j.n) && t.pc == 58
  {
    hide Reaches, Progress, Merge, Wrap, Low, Allows, Fits, At;
    hide Loaded, Code, IsLongsThenTail, IsWordTail, Replicated, Sum, Difference;
    LongsOfMemset000();
    ByteLoaded(j, c);
    var k;
    t, k := OddStart000(p, s0, c, j);
    var u := t;
    Running(j, u, k);
    t := Replicate000(p, s0, t, j.b);
    StillAt(j, u, t, k);
    Fits000(p.guard, j, k);
    LanesLoaded(j, t, L);
    LanesLoaded(j, t, B);
    t := LongsThenTail(p, s0, t, j, k);
  }

  // ---------- 68020 and later ----------

  lemma TailOfMemset020()
    ensures IsLongLoop(Memset020, 40, Set, CC) && IsDbfLoop(Memset020, 56, Set)
  {
  }

  /** Fills all four lanes of d0 with its low byte, and on the way turns the bias of the count from
      eight to the four of the long loop. */
  lemma Replicate020(p: Program, s0: Cpu, c: Cpu, b: byte) returns (t: Cpu)
    requires p.routine == Memset020 && Reaches(p, s0, c) && !c.fault && c.pc == 6 && c.d0 % 0x100 == b
    requires c.d2 < TWO32 - 4
    ensures Reaches(p, s0, t) && OnlyData(c, t) && t.pc == 20 && t.d2 == c.d2 + 4
    ensures t.d0 == Replicated(b, L)
  {
    hide Reaches, Merge, Low, Wrap, Replicated, Sum, Difference;
    t := StepMoveToD(p, s0, c, L, D(D0), D1);
    t := StepLsl8(p, s0, t, L, D0);
    LongShiftedUp(c.d0, b);
    TwoLanes(t.d0, b, t.d1);
    MergeOfLow(t.d0, B, t.d1);
    t := StepMoveToD(p, s0, t, B, D(D1), D0);
    t := Widen020(p, s0, t, b);
  }

  /** Doubles the two lanes of the low word into four, changing the bias in between. */
  lemma Widen020(p: Program, s0: Cpu, c: Cpu, b: byte) returns (t: Cpu)
    requires p.routine == Memset020 && Reaches(p, s0, c) && !c.fault && c.pc == 12
    requires c.d0 % 0x1_0000 == Replicated(b, W) && c.d2 < TWO32 - 4
    ensures Reaches(p, s0, t) && OnlyData(c, t) && t.pc == 20 && t.d2 == c.d2 + 4
    ensures t.d0 == Replicated(b, L)
  {
    hide Reaches, Merge, Low, Wrap, Replicated, Sum, Difference;
    t := StepAddq(p, s0, c, 4, D2);
    t := StepMoveToD(p, s0, t, L, D(D0), D1);
    t := StepSwap(p, s0, t, D0);
    FourLanes(c.d0, b, t.d1);
    MergeOfLow(t.d0, W, t.d1);
    t := StepMoveToD(p, s0, t, W, D(D1), D0);
  }

  lemma Fits020(g: Guard, j: Job, k: int, sz: Size)
    requires g.align != EvenAddresses && j.way == Set && (j.d + k) % Bytes(sz) == 0
    ensures Fits(g, j, k, sz)
  {
  }

  /** Brings the address to an even one, with one byte store if it is odd, and leaves half of it in
      d1. The count is not checked for a borrow: at least eight bytes were asked for. */
  lemma OddStart020(p: Program, s0: Cpu, c: Cpu, j: Job) returns (t: Cpu, k: int)
    requires p.routine == Memset020 && j.way == Set && Reaches(p, s0, c) && At(j, c, 0) && c.pc == 20
    requires c.d2 == j.n - 4 >= 4 && Allows(p.guard, j) && c.d0 == Replicated(j.b, L)
    ensures Reaches(p, s0, t) && At(j, t, k) && t.d2 == j.n - k - 4 && t.d0 == c.d0
    ensures t.pc == 32 && 0 <= k <= 1 && (j.d + k) % 2 == 0 && t.d1 == (j.d + k) / 2
  {
    hide Reaches, Progress, Merge, Wrap, Low, Allows, Fits, At, Loaded, Replicated, Sum, Difference;
    k := 0;
    Running(j, c, 0);
    Start(j, c);
    t := StepHalve(p, s0, c, A(A1), D1, 6);
    StillAt(j, c, t, 0);
    if j.d % 2 == 1 {
      BytesFit(p.guard, j, 0);
      LanesLoaded(j, t, B);
      t := StepTransfer(p, s0, t, j, 0, B);
      var u := t;
      k := 1;
      t := StepAddq(p, s0, t, 1, D1);
      t := StepSubq(p, s0, t, 1, D2);
      StillAt(j, u, t, 1);
    }
  }

  /** Brings the even address to a multiple of four, with one word store if it is not at one. Again
      the count cannot run out. */
  lemma WordStart020(p: Program, s0: Cpu, c: Cpu, j: Job, k: int) returns (t: Cpu, i: int)
    requires p.routine == Memset020 && j.way == Set && Reaches(p, s0, c) && At(j, c, k) && c.pc == 32
    requires c.d2 == j.n - k - 4 >= 2 && Allows(p.guard, j) && c.d0 == Replicated(j.b, L)
    requires (j.d + k) % 2 == 0 && c.d1 == (j.d + k) / 2 && p.guard.align != EvenAddresses
    ensures Reaches(p, s0, t) && At(j, t, i) && t.d2 == j.n - i - 4 && t.d0 == c.d0
    ensures t.pc == 40 && (j.d + i) % 4 == 0 && k <= i <= k + 2
  {
    hide Reaches, Progress, Merge, Wrap, Low, Allows, Fits, At, Loaded, Replicated, Sum, Difference;
    i := k;
    Running(j, c, k);
    t := StepLsr1(p, s0, c, D1);
    t := StepBcc(p, s0, t, CC, 4);
    StillAt(j, c, t, k);
    if (j.d + k) % 4 == 2 {
      Fits020(p.guard, j, k, W);
      LanesLoaded(j, t, W);
      t := StepTransfer(p, s0, t, j, k, W);
      var u := t;
      i := k + 2;
      t := StepSubq(p, s0, t, 2, D2);
      StillAt(j, u, t, i);
    }
  }

  /** The fill of eight bytes or more: lanes, alignment, longs, and the tail, entered only if a byte
      is left. */
  lemma LongFill020(p: Program, s0: Cpu, c: Cpu, j: Job) returns (t: Cpu)
    requires p.routine == Memset020 && j.way == Set && Reaches(p, s0, c) && At(j, c, 0) && c.pc == 6
    requires c.d2 == j.n - 8 >= 0 && Allows(p.guard, j) && c.d0 % 0x100 == j.b && p.guard.align != EvenAddresses
    ensures Reaches(p, s0, t) && At(j, t, j.n) && t.pc == 62
  {
    hide Reaches, Progress, Merge, Wrap, Low, Allows, Fits;
    hide At, Loaded, Replicated, IsLongLoop, IsDbfLoop, Sum, Difference;
    TailOfMemset020();
    Running(j, c, 0);
    var k;
    t := Replicate020(p, s0, c, j.b);
    StillAt(j, c, t, 0);
    t, k := OddStart020(p, s0, t, j);
    t, k := WordStart020(p, s0, t, j, k);
    Fits020(p.guard, j, k, L);
    LanesLoaded(j, t, L);
    t, k := BiasedLongLoop(p, s0, t, j, k);
    var u := t;
    Running(j, u, k);
    t := StepAddq(p, s0, t, 3, D2);
    t := StepBcc(p, s0, t, CS, 6);
    StillAt(j, u, t, k);
    if k < j.n {
      LanesLoaded(j, t, B);
      t := DbfLoop(p, s0, t, j, k);
    } else {
      t := StepBcc(p, s0, t, RA, 10);
      StillAt(j, u, t, k);
    }
  }

  /** memset on the 68020 and later. */
  lemma Memset020Runs(p: Program, s: Cpu, j: Job) returns (t: Cpu)
    requires p.routine == Memset020 && EnteredFill(j, s)
    requires Allows(p.guard, j) && p.guard.align != EvenAddresses
    ensures Finishes(p, s, t) && t.mem == Filled(j.m, j.d, j.b, j.n) && t.d0 == s.a0
  {
    hide Reaches, Progress, Merge, Wrap, Low, Allows, Fits, Filled;
    hide At, Loaded, IsLongLoop, IsDbfLoop, Replicated, Sum, Difference;
    TailOfMemset020();
    ReachesItself(p, s);
    t := StepMoveToA(p, s, s, A(A0), A1);
    t := StepSubq(p, s, t, 8, D2);
    t := StepBcc(p, s, t, CS, 46);
    AtStart(j, t);
    ByteLoaded(j, t);
    if 8 <= j.n {
      t := LongFill020(p, s, t, j);
    } else {
      t := StepAddq(p, s, t, 7, D2);
      t := StepBcc(p, s, t, CC, 6);
      AtStart(j, t);
      ByteLoaded(j, t);
      if 0 < j.n {
        t := DbfLoop(p, s, t, j, 0);
      }
    }
    Running(j, t, j.n);
    KeepsStart(j, t);
    t := StepMoveToD(p, s, t, L, A(A1), D0);
    ProgressEnds(j);
  }
}
