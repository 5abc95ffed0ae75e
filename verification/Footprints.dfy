/** What a tight guard says about the accesses of an unguarded run. */
module Footprints {
  import opened Options
  import opened Words
  import opened M68k
  import opened StringCode
  import opened M68kRuns
  import opened Blocks
  import opened Transfers
  import opened Memmove
  import opened CStrings
  import opened StringRuns

  /** Guard h refuses no access that g allows. */
  predicate Wider(g: Guard, h: Guard) {
    && Covers(g.read1, h.read1) && Covers(g.read2, h.read2) && Covers(g.write, h.write)
    && (h.align == g.align || h.align == AnyAddress)
  }

  predicate Covers(r: Region, q: Region) {
    q.lo <= r.lo && r.hi <= q.hi
  }

  lemma WiderLoad(g: Guard, h: Guard, m: seq<byte>, a: int, sz: Size)
    requires Wider(g, h) && MayLoad(g, m, a, sz)
    ensures MayLoad(h, m, a, sz)
  {
  }

  lemma WiderStore(g: Guard, h: Guard, m: seq<byte>, a: int, sz: Size)
    requires Wider(g, h) && MayStore(g, m, a, sz)
    ensures MayStore(h, m, a, sz)
  {
  }

  lemma WiderSource(g: Guard, h: Guard, s: Cpu, o: Operand, sz: Size)
    requires Wider(g, h) && Source(g, s, o, sz) != Trap
    ensures Source(h, s, o, sz) == Source(g, s, o, sz)
  {
    hide Wider, MayLoad, Load, Wrap;
    if o.Ind? || o.PostInc? {
      WiderLoad(g, h, s.mem, GetA(s, o.a), sz);
    } else if o.PreDec? {
      WiderLoad(g, h, s.mem, Wrap(GetA(s, o.a) - Bytes(sz)), sz);
    }
  }

  lemma WiderStoreAt(g: Guard, h: Guard, s: Cpu, a: u32, sz: Size, v: u32)
    requires Wider(g, h) && !StoreAt(g, s, a, sz, v).fault
    ensures StoreAt(h, s, a, sz, v) == StoreAt(g, s, a, sz, v)
  {
    hide Wider, Store;
    if MayStore(g, s.mem, a, sz) {
      WiderStore(g, h, s.mem, a, sz);
    }
  }

  lemma WiderPut(g: Guard, h: Guard, s: Cpu, o: Operand, sz: Size, v: u32)
    requires Wider(g, h) && !Put(g, s, o, sz, v).fault
    ensures Put(h, s, o, sz, v) == Put(g, s, o, sz, v)
  {
    hide Wider, StoreAt, Wrap;
    match o
    case Ind(r) => WiderStoreAt(g, h, s, GetA(s, r), sz, v);
    case PostInc(r) =>
      WiderStoreAt(g, h, SetA(s, r, Wrap(GetA(s, r) + Bytes(sz))), GetA(s, r), sz, v);
    case PreDec(r) =>
      var a := Wrap(GetA(s, r) - Bytes(sz));
      WiderStoreAt(g, h, SetA(s, r, a), a, sz, v);
    case _ =>
  }

  /** An instruction that is not refused under g does the same under h. */
  lemma WiderExec(g: Guard, h: Guard, i: Instr, s: Cpu)
    requires Wider(g, h) && !Exec(g, i, s).fault
    ensures Exec(h, i, s) == Exec(g, i, s)
  {
    hide Wider, Source, Put, Result, Low, Wrap, Difference, Sum, BitAnd, Length, Merge;
    var next := Skip(s, Length(i));
    if i.Move? || i.Tst? || i.Cmp? || i.And? || i.Sub? {
      if Source(g, next, i.src, i.sz) != Trap {
        WiderSource(g, h, next, i.src, i.sz);
        if i.Move? && !i.dst.D? && !i.dst.A? {
          var Got(v, s1) := Source(g, next, i.src, i.sz);
          WiderPut(g, h, s1, i.dst, i.sz, v);
        }
      }
    }
  }

  /** A run that is not refused under g is, state by state, the run under h. */
  lemma {:induction false} WiderRun(p: Program, q: Program, s: Cpu, k: nat)
    requires p.routine == q.routine && Wider(p.guard, q.guard) && !Run(p, s, k).fault
    ensures Run(q, s, k) == Run(p, s, k)
  {
    hide Exec, Code, Wider;
    if k == 0 {
    } else {
      var u := Run(p, s, k - 1);
      WiderRun(p, q, s, k - 1);
      var i := Code(p.routine, u.pc);
      if i.Some? {
        WiderExec(p.guard, q.guard, i.value, u);
      }
    }
  }

  lemma {:induction false} FaultStays(p: Program, s: Cpu, j: nat, k: nat)
    requires j <= k && Run(p, s, j).fault
    ensures Run(p, s, k).fault
  {
    hide Exec, Code;
    if j == k {
    } else {
      FaultStays(p, s, j, k - 1);
    }
  }

  /** A run that finishes is not refused anywhere. */
  lemma NeverRefused(p: Program, s: Cpu, t: Cpu, k: nat)
    requires Finishes(p, s, t)
    ensures !Run(p, s, k).fault
  {
    hide Run, End;
    var j: nat :| Run(p, s, j) == t;
    if Run(p, s, k).fault {
      if k <= j {
        FaultStays(p, s, k, j);
      } else {
        StaysAtEnd(p, s, t, j, k);
      }
    }
  }

  /** A run that finishes under g is, from first to last state, the run under h: what a tight guard
      allows is all that the run does on a processor that checks less. */
  lemma WiderFinishes(p: Program, q: Program, s: Cpu, t: Cpu)
    requires p.routine == q.routine && Wider(p.guard, q.guard) && Finishes(p, s, t)
    ensures Finishes(q, s, t)
    ensures forall k: nat :: Run(q, s, k) == Run(p, s, k) && !Run(p, s, k).fault
  {
    hide Run, Wider;
    forall k: nat
      ensures Run(q, s, k) == Run(p, s, k) && !Run(p, s, k).fault
    {
      NeverRefused(p, s, t, k);
      WiderRun(p, q, s, k);
    }
    var k: nat :| Run(p, s, k) == t;
    assert Run(q, s, k) == t;
  }

  /** Memory m became m' with changes in the region only. */
  ghost predicate ChangedWithin(m: seq<byte>, m': seq<byte>, r: Region) {
    |m'| == |m| && forall a :: 0 <= a < |m| && !(r.lo <= a < r.hi) ==> m'[a] == m[a]
  }

  lemma SourceKeepsMemory(g: Guard, s: Cpu, o: Operand, sz: Size)
    ensures var v := Source(g, s, o, sz); v.Got? ==> v.s.mem == s.mem
  {
  }

  lemma StoreAtInside(g: Guard, s: Cpu, d: u32, sz: Size, v: u32)
    ensures ChangedWithin(s.mem, StoreAt(g, s, d, sz, v).mem, g.write)
  {
  }

  lemma PutInside(g: Guard, s: Cpu, o: Operand, sz: Size, v: u32)
    ensures ChangedWithin(s.mem, Put(g, s, o, sz, v).mem, g.write)
  {
    hide StoreAt, Wrap;
    match o
    case Ind(r) => StoreAtInside(g, s, GetA(s, r), sz, v);
    case PostInc(r) =>
      StoreAtInside(g, SetA(s, r, Wrap(GetA(s, r) + Bytes(sz))), GetA(s, r), sz, v);
    case PreDec(r) =>
      var d := Wrap(GetA(s, r) - Bytes(sz));
      StoreAtInside(g, SetA(s, r, d), d, sz, v);
    case _ =>
  }

  predicate Stores(i: Instr) {
    i.Move? && !i.dst.D? && !i.dst.A?
  }

  lemma OthersKeepMemory(g: Guard, i: Instr, s: Cpu)
    requires !Stores(i)
    ensures Exec(g, i, s).mem == s.mem
  {
    hide Source, Put, Low, Wrap, Difference, Sum, BitAnd, Length, Merge, Modulus, Holds, Result, SetFlags;
    if i.Move? || i.Tst? || i.Cmp? || i.And? || i.Sub? {
      SourceKeepsMemory(g, Skip(s, Length(i)), i.src, i.sz);
    }
  }

  /** No instruction changes a byte outside the guard's writable region. */
  lemma ExecInside(g: Guard, i: Instr, s: Cpu)
    ensures ChangedWithin(s.mem, Exec(g, i, s).mem, g.write)
  {
    hide Source, Put, Wrap, Length, Modulus;
    if Stores(i) {
      var next := Skip(s, Length(i));
      var v := Source(g, next, i.src, i.sz);
      SourceKeepsMemory(g, next, i.src, i.sz);
      if v.Got? {
        PutInside(g, v.s, i.dst, i.sz, v.v);
      }
    } else {
      OthersKeepMemory(g, i, s);
    }
  }

  lemma {:induction false} RunInside(p: Program, s: Cpu, k: nat)
    ensures ChangedWithin(s.mem, Run(p, s, k).mem, p.guard.write)
  {
    hide Exec, Code;
    if k == 0 {
    } else {
      RunInside(p, s, k - 1);
      var u := Run(p, s, k - 1);
      var i := Code(p.routine, u.pc);
      if i.Some? {
        ExecInside(p.guard, i.value, u);
      }
    }
  }

  // ---------- what the routines touch ----------

  const NOTHING := Region(0, 0)

  /** The tightest guard for a block job: its source, its destination, and the alignment claimed. */
  function BlockGuard(f: Family, j: Job): Guard {
    Guard(if j.way == Set then NOTHING else Region(j.s, j.s + j.n), NOTHING, Region(j.d, j.d + j.n), Claim(f))
  }

  /** The run to t, whatever its own guard, makes only accesses that g allows: step by step it is the
      run under g, which never faults, and at every step the bytes outside g's writable region are
      as they were. */
  ghost predicate Touches(q: Program, g: Guard, s: Cpu, t: Cpu) {
    var p := Program(q.routine, g);
    && Finishes(p, s, t) && Finishes(q, s, t)
    && forall k: nat :: Run(q, s, k) == Run(p, s, k) && !Run(p, s, k).fault
                        && ChangedWithin(s.mem, Run(q, s, k).mem, g.write)
  }

  lemma TouchesOnly(q: Program, g: Guard, s: Cpu, t: Cpu)
    requires Wider(g, q.guard) && Finishes(Program(q.routine, g), s, t)
    ensures Touches(q, g, s, t)
  {
    hide Finishes, Wider, Run, ChangedWithin;
    var p := Program(q.routine, g);
    WiderFinishes(p, q, s, t);
    forall k: nat
      ensures Run(q, s, k) == Run(p, s, k) && !Run(p, s, k).fault
      ensures ChangedWithin(s.mem, Run(q, s, k).mem, g.write)
    {
      assert Run(q, s, k) == Run(p, s, k);
      RunInside(p, s, k);
    }
  }

  /** Whatever the processor allows beyond the tight guard, a run of a block routine reads only
      source bytes and keeps the claimed alignment in every step, and at every step the bytes
      outside the destination are as they were. */
  lemma BlockFootprint(f: Family, q: Program, s: Cpu, j: Job) returns (t: Cpu)
    requires q.routine == CopyRoutine(f, j.way) && Called(j, s)
    requires Wider(BlockGuard(f, j), q.guard)
    ensures Touches(q, BlockGuard(f, j), s, t) && t.mem == JobDone(j) && t.d0 == Wrap(j.d)
  {
    hide Finishes, Touches, Called, JobDone, Wrap, Wider;
    t := BlockRuns(f, Program(q.routine, BlockGuard(f, j)), s, j);
    TouchesOnly(q, BlockGuard(f, j), s, t);
  }

  // ---------- what not being refused means ----------

  /** An instruction that is not refused has not been refused its source. */
  lemma NotTrapped(g: Guard, i: Instr, c: Cpu)
    requires (i.Move? || i.Tst? || i.Cmp? || i.And? || i.Sub?) && !Exec(g, i, c).fault
    ensures Source(g, Skip(c, Length(i)), i.src, i.sz) != Trap
  {
    hide Source, Put, Result, SetFlags, Length, Low, Difference, BitAnd;
  }

  lemma FetchAllowed(g: Guard, s: Cpu, o: Operand, sz: Size)
    requires Source(g, s, o, sz) != Trap && (o.Ind? || o.PostInc? || o.PreDec?)
    ensures MayLoad(g, s.mem, if o.PreDec? then Wrap(GetA(s, o.a) - Bytes(sz)) else GetA(s, o.a), sz)
  {
    hide MayLoad, Load, Wrap, Bytes;
  }

  lemma LoadMeans(g: Guard, m: seq<byte>, a: int, sz: Size)
    requires MayLoad(g, m, a, sz)
    ensures (g.read1.lo <= a && a + Bytes(sz) <= g.read1.hi) || (g.read2.lo <= a && a + Bytes(sz) <= g.read2.hi)
    ensures g.align == EvenAddresses && sz != B ==> a % 2 == 0
  {
  }

  lemma StoreMeans(g: Guard, m: seq<byte>, a: int, sz: Size)
    requires MayStore(g, m, a, sz)
    ensures g.write.lo <= a && a + Bytes(sz) <= g.write.hi
    ensures g.align == EvenAddresses && sz != B ==> a % 2 == 0
    ensures g.align == AlignedStores ==> a % Bytes(sz) == 0
  {
  }

  /** An instruction that is not refused reads inside a readable region, and words and longs at even
      addresses where the guard asks for that. */
  lemma AllowedLoad(g: Guard, i: Instr, c: Cpu)
    requires (i.Move? || i.Tst? || i.Cmp? || i.And? || i.Sub?) && !Exec(g, i, c).fault
    requires i.src.Ind? || i.src.PostInc? || i.src.PreDec?
    ensures var a := if i.src.PreDec? then Wrap(GetA(c, i.src.a) - Bytes(i.sz)) else GetA(c, i.src.a);
      && ((g.read1.lo <= a && a + Bytes(i.sz) <= g.read1.hi) || (g.read2.lo <= a && a + Bytes(i.sz) <= g.read2.hi))
      && (g.align == EvenAddresses && i.sz != B ==> a % 2 == 0)
  {
    hide Exec, Source, MayLoad, Wrap, Length, Bytes;
    var next := Skip(c, Length(i));
    NotTrapped(g, i, c);
    FetchAllowed(g, next, i.src, i.sz);
    LoadMeans(g, c.mem, if i.src.PreDec? then Wrap(GetA(c, i.src.a) - Bytes(i.sz)) else GetA(c, i.src.a), i.sz);
  }

  /** What a source operand does to the other address register: nothing. */
  lemma FetchElsewhere(g: Guard, s: Cpu, o: Operand, sz: Size, r: AReg)
    requires o.D? || ((o.Ind? || o.PostInc? || o.PreDec?) && o.a != r)
    ensures var v := Source(g, s, o, sz); v.Got? ==> GetA(v.s, r) == GetA(s, r) && v.s.mem == s.mem
  {
    hide MayLoad, Load, Wrap, Bytes, Low;
  }

  lemma StoreAllowed(g: Guard, s: Cpu, a: u32, sz: Size, v: u32)
    requires !StoreAt(g, s, a, sz, v).fault
    ensures MayStore(g, s.mem, a, sz)
  {
    hide MayStore, Store;
  }

  lemma PutAllowed(g: Guard, s: Cpu, o: Operand, sz: Size, v: u32)
    requires !Put(g, s, o, sz, v).fault && (o.Ind? || o.PostInc? || o.PreDec?)
    ensures MayStore(g, s.mem, if o.PreDec? then Wrap(GetA(s, o.a) - Bytes(sz)) else GetA(s, o.a), sz)
  {
    hide MayStore, StoreAt, Wrap, Bytes;
    match o
    case Ind(r) => StoreAllowed(g, s, GetA(s, r), sz, v);
    case PostInc(r) => StoreAllowed(g, SetA(s, r, Wrap(GetA(s, r) + Bytes(sz))), GetA(s, r), sz, v);
    case PreDec(r) =>
      var a := Wrap(GetA(s, r) - Bytes(sz));
      StoreAllowed(g, SetA(s, r, a), a, sz, v);
  }

  lemma NotRefused(g: Guard, i: Instr, c: Cpu)
    requires i.Move? && !i.dst.D? && !i.dst.A? && !Exec(g, i, c).fault
    ensures var v := Source(g, Skip(c, Length(i)), i.src, i.sz);
      v.Got? && !Put(g, v.s, i.dst, i.sz, v.v).fault
  {
    hide Source, Put, Length;
  }

  /** It writes inside the writable region, aligned as the guard asks. */
  lemma AllowedStore(g: Guard, i: Instr, c: Cpu)
    requires i.Move? && !Exec(g, i, c).fault
    requires i.dst.Ind? || i.dst.PostInc? || i.dst.PreDec?
    requires i.src.D? || ((i.src.Ind? || i.src.PostInc? || i.src.PreDec?) && i.src.a != i.dst.a)
    ensures var a := if i.dst.PreDec? then Wrap(GetA(c, i.dst.a) - Bytes(i.sz)) else GetA(c, i.dst.a);
      && g.write.lo <= a && a + Bytes(i.sz) <= g.write.hi
      && (g.align == EvenAddresses && i.sz != B ==> a % 2 == 0)
      && (g.align == AlignedStores ==> a % Bytes(i.sz) == 0)
  {
    hide Exec, Source, Put, MayStore, Wrap, Length, Bytes;
    var next := Skip(c, Length(i));
    NotRefused(g, i, c);
    var v := Source(g, next, i.src, i.sz);
    FetchElsewhere(g, next, i.src, i.sz, i.dst.a);
    PutAllowed(g, v.s, i.dst, i.sz, v.v);
    StoreMeans(g, c.mem, if i.dst.PreDec? then Wrap(GetA(c, i.dst.a) - Bytes(i.sz)) else GetA(c, i.dst.a), i.sz);
  }

  /** The state a run that touches only what g allows goes to next. */
  lemma TouchedStep(q: Program, g: Guard, s: Cpu, t: Cpu, k: nat, i: Instr)
    requires Touches(q, g, s, t) && Code(q.routine, Run(q, s, k).pc) == Some(i)
    ensures !Exec(g, i, Run(q, s, k)).fault
  {
    hide Exec, Finishes, ChangedWithin, Code;
    var p := Program(q.routine, g);
    assert Run(q, s, k) == Run(p, s, k) && !Run(p, s, k).fault;
    assert Run(q, s, k + 1) == Run(p, s, k + 1) && !Run(p, s, k + 1).fault;
    assert Run(p, s, k + 1) == Step(p, Run(p, s, k));
  }

  /** Access by access: at every step of a block routine the next transfer writes inside the
      destination and reads inside the source; the 68000 version does so at even addresses unless it
      is a byte, and the 68020 version writes at multiples of the size. */
  lemma BlockAccess(f: Family, q: Program, s: Cpu, j: Job, k: nat, sz: Size)
    requires q.routine == CopyRoutine(f, j.way) && Called(j, s) && Wider(BlockGuard(f, j), q.guard)
    requires Code(q.routine, Run(q, s, k).pc) == Some(Transfer(j.way, sz))
    ensures var c := Run(q, s, k);
      var a := if j.way == Down then Wrap(c.a0 - Bytes(sz)) else c.a0;
      && j.d <= a && a + Bytes(sz) <= j.d + j.n
      && (f == M68000 && sz != B ==> a % 2 == 0)
      && (f == M68020 ==> a % Bytes(sz) == 0)
    ensures var c := Run(q, s, k);
      var o := if j.way == Down then Wrap(c.a1 - Bytes(sz)) else c.a1;
      j.way != Set ==>
        && j.s <= o && o + Bytes(sz) <= j.s + j.n
        && (f == M68000 && sz != B ==> o % 2 == 0)
  {
    hide Exec, Touches, Called, JobDone, Wrap, Wider, Run, Code, Bytes;
    var i := Transfer(j.way, sz);
    var t := BlockFootprint(f, q, s, j);
    TouchedStep(q, BlockGuard(f, j), s, t, k, i);
    AllowedStore(BlockGuard(f, j), i, Run(q, s, k));
    if j.way != Set {
      AllowedLoad(BlockGuard(f, j), i, Run(q, s, k));
      SizePositive(sz);
    }
  }

  lemma SizePositive(sz: Size)
    ensures 0 < Bytes(sz)
  {
  }

  // ---------- strings ----------

  /** Two blocks to read and one to write, at any alignment. */
  function StringGuard(a: int, x: int, b: int, y: int, d: int, n: int): Guard {
    Guard(Region(a, a + x), Region(b, b + y), Region(d, d + n), AnyAddress)
  }

  /** strlen looks at no byte behind the NUL and writes none. */
  lemma StrlenFootprint(q: Program, s: Cpu, n: int) returns (t: Cpu)
    requires q.routine == Strlen && Ready(s) && IsString(s.mem, s.a0, n)
    requires Wider(StringGuard(s.a0, n + 1, 0, 0, 0, 0), q.guard)
    ensures Touches(q, StringGuard(s.a0, n + 1, 0, 0, 0, 0), s, t) && t.d0 == n
  {
    hide Finishes, Touches, Wider, IsString;
    var g := StringGuard(s.a0, n + 1, 0, 0, 0, 0);
    t := StrlenRuns(Program(Strlen, g), s, n);
    TouchesOnly(q, g, s, t);
  }

  /** strcpy reads the source string with its NUL, and writes as many bytes. */
  lemma StrcpyFootprint(q: Program, s: Cpu, j: Job, n: int) returns (t: Cpu)
    requires q.routine == Strcpy && Ready(s) && At(j, s, 0) && j.way == Up && j.n == n + 1 && IsString(j.m, j.s, n)
    requires Wider(StringGuard(j.s, n + 1, 0, 0, j.d, n + 1), q.guard)
    ensures Touches(q, StringGuard(j.s, n + 1, 0, 0, j.d, n + 1), s, t) && t.mem == Copied(j.m, j.d, j.s, n + 1)
  {
    hide Finishes, Touches, Wider, IsString, At, Copied;
    var g := StringGuard(j.s, n + 1, 0, 0, j.d, n + 1);
    t := StrcpyRuns(Program(Strcpy, g), s, j, n);
    TouchesOnly(q, g, s, t);
  }

  /** The tightest guard for strncpy. */
  function StrncpyGuard(q: Pad): Guard {
    StringGuard(q.s, Seen(q), 0, 0, q.d, q.n)
  }

  /** strncpy reads the source up to its NUL, at most n bytes, and writes exactly n, n being the count
      as the sign test takes it. */
  lemma StrncpyFootprint(q: Program, s: Cpu, l: int) returns (t: Cpu)
    requires q.routine == Strncpy && Ready(s)
    requires var b := Pad(s.mem, s.a0, s.a1, l, Count(s.d1));
      Paddable(StrncpyGuard(b), b) && Wider(StrncpyGuard(b), q.guard)
    ensures Touches(q, StrncpyGuard(Pad(s.mem, s.a0, s.a1, l, Count(s.d1))), s, t)
    ensures t.mem == PaddedCopy(s.mem, s.a0, s.a1, l, Count(s.d1))
  {
    hide Finishes, Touches, Wider, PaddedCopy, StrncpyGuard;
    var g := StrncpyGuard(Pad(s.mem, s.a0, s.a1, l, Count(s.d1)));
    t := StrncpyRuns(Program(Strncpy, g), s, l);
    TouchesOnly(q, g, s, t);
  }

  /** strcmp looks at no byte behind either terminator, and writes none. */
  lemma StrcmpFootprint(q: Program, s: Cpu, x: int, y: int) returns (t: Cpu)
    requires q.routine == Strcmp && Ready(s) && IsString(s.mem, s.a0, x) && IsString(s.mem, s.a1, y)
    requires Wider(StringGuard(s.a0, x + 1, s.a1, y + 1, 0, 0), q.guard)
    ensures Touches(q, StringGuard(s.a0, x + 1, s.a1, y + 1, 0, 0), s, t)
    ensures Signed(t.d0) == Compare(s.mem[s.a0..s.a0 + x], s.mem[s.a1..s.a1 + y])
  {
    hide Finishes, Touches, Wider, Signed, Compare;
    var g := StringGuard(s.a0, x + 1, s.a1, y + 1, 0, 0);
    t := StrcmpRuns(Program(Strcmp, g), s, x, y);
    TouchesOnly(q, g, s, t);
  }

  /** The tightest guard for strncmp: at most n bytes of each array. */
  function StrncmpGuard(q: Pair): Guard {
    StringGuard(q.a, if q.x < q.n then q.x + 1 else q.n, q.b, if q.y < q.n then q.y + 1 else q.n, 0, 0)
  }

  /** strncmp looks at no byte behind a terminator, at no more than n of either array, and writes
      none. */
  lemma StrncmpFootprint(q: Program, s: Cpu, x: int, y: int) returns (t: Cpu)
    requires q.routine == Strncmp && Ready(s)
    requires IsCut(s.mem, s.a0, x, Count(s.d2)) && IsCut(s.mem, s.a1, y, Count(s.d2))
    requires Wider(StrncmpGuard(Pair(s.mem, s.a0, x, s.a1, y, Count(s.d2))), q.guard)
    ensures Touches(q, StrncmpGuard(Pair(s.mem, s.a0, x, s.a1, y, Count(s.d2))), s, t)
    ensures Signed(t.d0) == Compare(s.mem[s.a0..s.a0 + x], s.mem[s.a1..s.a1 + y])
  {
    hide Finishes, Touches, Wider, Signed, Compare;
    var g := StrncmpGuard(Pair(s.mem, s.a0, x, s.a1, y, Count(s.d2)));
    t := StrncmpRuns(Program(Strncmp, g), s, x, y);
    TouchesOnly(q, g, s, t);
  }

  /** strcat reads both strings with their NULs, and writes from the NUL of the destination on. */
  lemma StrcatFootprint(q: Program, s: Cpu, k: int, j: Job, n: int) returns (t: Cpu)
    requires q.routine == Strcat && Ready(s) && IsString(s.mem, s.a0, k) && IsString(j.m, j.s, n)
    requires Sound(j) && j.way == Up && j.n == n + 1 && j.m == s.mem && j.d == s.a0 + k && j.s == s.a1
    requires Wider(StringGuard(j.s, n + 1, s.a0, k + 1, j.d, n + 1), q.guard)
    ensures Touches(q, StringGuard(j.s, n + 1, s.a0, k + 1, j.d, n + 1), s, t)
    ensures t.mem == Copied(s.mem, s.a0 + k, s.a1, n + 1)
  {
    hide Finishes, Touches, Wider, IsString, Copied;
    var g := StringGuard(j.s, n + 1, s.a0, k + 1, j.d, n + 1);
    t := StrcatRuns(Program(Strcat, g), s, k, j, n);
    TouchesOnly(q, g, s, t);
  }

  /** strrchr looks at no byte behind the NUL and writes none. */
  lemma StrrchrFootprint(q: Program, s: Cpu, n: int) returns (t: Cpu)
    requires q.routine == Strrchr && Ready(s) && IsString(s.mem, s.a0, n)
    requires Wider(StringGuard(s.a0, n + 1, 0, 0, 0, 0), q.guard)
    ensures Touches(q, StringGuard(s.a0, n + 1, 0, 0, 0, 0), s, t)
    ensures t.d0 == Pointer(s.a0, LastMatch(s.mem, s.a0, n + 1, s.d1 % 0x100))
  {
    hide Finishes, Touches, Wider, LastMatch;
    var g := StringGuard(s.a0, n + 1, 0, 0, 0, 0);
    t := StrrchrRuns(Program(Strrchr, g), s, n);
    TouchesOnly(q, g, s, t);
  }
}
