/** Runs of the machine through a routine: what it is to reach a state and to finish, that a run
    finishes in one state at most, and one lemma per instruction form saying what its step does. */
module M68kRuns {
  import opened Options
  import opened Words
  import opened M68k
  import opened StringCode

  datatype Program = Program(routine: Routine, guard: Guard)

  function Step(p: Program, s: Cpu): Cpu {
    match Code(p.routine, s.pc)
    case None => s
    case Some(i) => if s.fault then s else Exec(p.guard, i, s)
  }

  function Run(p: Program, s: Cpu, k: nat): Cpu {
    if k == 0 then s else Step(p, Run(p, s, k - 1))
  }

  ghost predicate Reaches(p: Program, s: Cpu, t: Cpu) {
    exists k: nat :: Run(p, s, k) == t
  }

  /** The run leaves the routine at its end, without a fault, in state t. */
  ghost predicate Finishes(p: Program, s: Cpu, t: Cpu) {
    Reaches(p, s, t) && t.pc == End(p.routine) && !t.fault
  }

  lemma {:induction false} StaysAtEnd(p: Program, s: Cpu, t: Cpu, j: nat, k: nat)
    requires j <= k && Run(p, s, j) == t && t.pc == End(p.routine)
    ensures Run(p, s, k) == t
  {
    hide Exec;
    if j == k {
    } else {
      StaysAtEnd(p, s, t, j, k - 1);
    }
  }

  /** A run finishes in one state at most. */
  lemma FinishesOnce(p: Program, s: Cpu, t: Cpu, u: Cpu)
    requires Finishes(p, s, t) && Finishes(p, s, u)
    ensures t == u
  {
    hide Exec;
    var j: nat :| Run(p, s, j) == t;
    var k: nat :| Run(p, s, k) == u;
    if j <= k {
      StaysAtEnd(p, s, t, j, k);
    } else {
      StaysAtEnd(p, s, u, k, j);
    }
  }

  lemma ReachesItself(p: Program, s: Cpu)
    ensures Reaches(p, s, s)
  {
    hide Exec;
    assert Run(p, s, 0) == s;
  }

  /** One more step of a run that is about to execute instruction i. */
  lemma StepOf(p: Program, s0: Cpu, s: Cpu, i: Instr)
    requires Reaches(p, s0, s) && !s.fault && Code(p.routine, s.pc) == Some(i)
    ensures Reaches(p, s0, Exec(p.guard, i, s))
  {
    hide Exec, Code;
    var k: nat :| Run(p, s0, k) == s;
    assert Run(p, s0, k + 1) == Exec(p.guard, i, s);
  }

  /** A register or immediate operand. */
  predicate Plain(o: Operand) {
    o.D? || o.A? || o.Imm?
  }

  function PlainValue(s: Cpu, o: Operand, sz: Size): u32
    requires Plain(o)
  {
    match o
    case D(r) => Low(GetD(s, r), sz)
    case A(r) => Low(GetA(s, r), sz)
    case Imm(v) => Low(v, sz)
  }

  lemma StepMoveToD(p: Program, s0: Cpu, s: Cpu, sz: Size, src: Operand, r: DReg) returns (t: Cpu)
    requires Reaches(p, s0, s) && !s.fault && Plain(src) && !src.Imm?
    requires Code(p.routine, s.pc) == Some(Move(sz, src, D(r)))
    ensures Reaches(p, s0, t)
    ensures t == Result(Skip(s, 2), r, sz, PlainValue(s, src, sz), false)
  {
    hide Reaches, Code, MayLoad, Load, Wrap, BitAnd, Result, SetFlags, Merge, Low, Sum, Difference, Modulus;
    t := Exec(p.guard, Move(sz, src, D(r)), s);
    StepOf(p, s0, s, Move(sz, src, D(r)));
  }

  lemma StepMoveToA(p: Program, s0: Cpu, s: Cpu, src: Operand, r: AReg) returns (t: Cpu)
    requires Reaches(p, s0, s) && !s.fault && Plain(src) && !src.Imm?
    requires Code(p.routine, s.pc) == Some(Move(L, src, A(r)))
    ensures Reaches(p, s0, t)
    ensures t == SetA(Skip(s, 2), r, PlainValue(s, src, L))
  {
    hide Reaches, Code, MayLoad, Load, Wrap, BitAnd, Result, SetFlags, Merge, Low, Sum, Difference, Modulus;
    t := Exec(p.guard, Move(L, src, A(r)), s);
    StepOf(p, s0, s, Move(L, src, A(r)));
  }

  lemma StepMoveq(p: Program, s0: Cpu, s: Cpu, n: u32, r: DReg) returns (t: Cpu)
    requires Reaches(p, s0, s) && !s.fault
    requires Code(p.routine, s.pc) == Some(Moveq(n, r))
    ensures Reaches(p, s0, t)
    ensures t == Result(Skip(s, 2), r, L, n, false)
  {
    hide Reaches, Code, MayLoad, Load, Wrap, BitAnd, Result, SetFlags, Merge, Low, Sum, Difference, Modulus;
    t := Exec(p.guard, Moveq(n, r), s);
    StepOf(p, s0, s, Moveq(n, r));
  }

  lemma StepCmp(p: Program, s0: Cpu, s: Cpu, n: u32, r: DReg) returns (t: Cpu)
    requires Reaches(p, s0, s) && !s.fault
    requires Code(p.routine, s.pc) == Some(Cmp(L, Imm(n), r))
    ensures Reaches(p, s0, t)
    ensures t == SetFlags(Skip(s, 6), L, Difference(GetD(s, r), n, L), GetD(s, r) < n)
  {
    hide Reaches, Code, MayLoad, Load, Wrap, BitAnd, Result, SetFlags, Merge, Low, Sum, Difference;
    t := Exec(p.guard, Cmp(L, Imm(n), r), s);
    StepOf(p, s0, s, Cmp(L, Imm(n), r));
  }

  lemma StepAnd(p: Program, s0: Cpu, s: Cpu, sz: Size, src: Operand, r: DReg) returns (t: Cpu)
    requires Reaches(p, s0, s) && !s.fault && Plain(src)
    requires Code(p.routine, s.pc) == Some(And(sz, src, r))
    ensures Reaches(p, s0, t)
    ensures t == Result(Skip(s, Length(And(sz, src, r))), r, sz,
                        BitAnd(Low(GetD(s, r), sz), PlainValue(s, src, sz)), false)
  {
    hide Reaches, Code, Length, MayLoad, Load, Wrap, BitAnd, Result, SetFlags, Merge, Low, Sum, Difference, Modulus;
    t := Exec(p.guard, And(sz, src, r), s);
    StepOf(p, s0, s, And(sz, src, r));
  }

  lemma StepSub(p: Program, s0: Cpu, s: Cpu, src: Operand, r: DReg) returns (t: Cpu)
    requires Reaches(p, s0, s) && !s.fault && Plain(src) && !src.Imm?
    requires Code(p.routine, s.pc) == Some(Sub(L, src, r))
    ensures Reaches(p, s0, t)
    ensures var x, y := GetD(s, r), PlainValue(s, src, L);
      t == Result(Skip(s, 2), r, L, Difference(x, y, L), x < y)
  {
    hide Reaches, Code, MayLoad, Load, Wrap, BitAnd, Result, SetFlags, Merge, Low, Sum, Difference;
    t := Exec(p.guard, Sub(L, src, r), s);
    StepOf(p, s0, s, Sub(L, src, r));
  }

  lemma StepAddq(p: Program, s0: Cpu, s: Cpu, n: u32, r: DReg) returns (t: Cpu)
    requires Reaches(p, s0, s) && !s.fault
    requires Code(p.routine, s.pc) == Some(Addq(L, n, r))
    ensures Reaches(p, s0, t)
    ensures t == Result(Skip(s, 2), r, L, Sum(GetD(s, r), n, L), GetD(s, r) + n >= TWO32)
  {
    hide Reaches, Code, MayLoad, Load, Wrap, BitAnd, Result, SetFlags, Merge, Low, Sum, Difference;
    t := Exec(p.guard, Addq(L, n, r), s);
    StepOf(p, s0, s, Addq(L, n, r));
  }

  lemma StepSubq(p: Program, s0: Cpu, s: Cpu, n: u32, r: DReg) returns (t: Cpu)
    requires Reaches(p, s0, s) && !s.fault
    requires Code(p.routine, s.pc) == Some(Subq(L, n, r))
    ensures Reaches(p, s0, t)
    ensures t == Result(Skip(s, 2), r, L, Difference(GetD(s, r), n, L), GetD(s, r) < n)
  {
    hide Reaches, Code, MayLoad, Load, Wrap, BitAnd, Result, SetFlags, Merge, Low, Sum, Difference;
    t := Exec(p.guard, Subq(L, n, r), s);
    StepOf(p, s0, s, Subq(L, n, r));
  }

  /** `subq.w #1,dn` on the low word. */
  lemma StepSubqW(p: Program, s0: Cpu, s: Cpu, r: DReg) returns (t: Cpu)
    requires Reaches(p, s0, s) && !s.fault
    requires Code(p.routine, s.pc) == Some(Subq(W, 1, r))
    ensures Reaches(p, s0, t)
    ensures var x := Low(GetD(s, r), W);
      t == Result(Skip(s, 2), r, W, Difference(x, 1, W), x == 0)
  {
    hide Reaches, Code, MayLoad, Load, Wrap, BitAnd, Result, SetFlags, Merge, Low, Sum, Difference, Modulus;
    t := Exec(p.guard, Subq(W, 1, r), s);
    StepOf(p, s0, s, Subq(W, 1, r));
  }

  lemma StepAddqA(p: Program, s0: Cpu, s: Cpu, n: u32, r: AReg) returns (t: Cpu)
    requires Reaches(p, s0, s) && !s.fault
    requires Code(p.routine, s.pc) == Some(AddqA(n, r))
    ensures Reaches(p, s0, t)
    ensures t == SetA(Skip(s, 2), r, Wrap(GetA(s, r) + n))
  {
    hide Reaches, Code, MayLoad, Load, Wrap, BitAnd, Result, SetFlags, Merge, Low, Sum, Difference, Modulus;
    t := Exec(p.guard, AddqA(n, r), s);
    StepOf(p, s0, s, AddqA(n, r));
  }

  lemma StepSubqA(p: Program, s0: Cpu, s: Cpu, n: u32, r: AReg) returns (t: Cpu)
    requires Reaches(p, s0, s) && !s.fault
    requires Code(p.routine, s.pc) == Some(SubqA(n, r))
    ensures Reaches(p, s0, t)
    ensures t == SetA(Skip(s, 2), r, Wrap(GetA(s, r) - n))
  {
    hide Reaches, Code, MayLoad, Load, Wrap, BitAnd, Result, SetFlags, Merge, Low, Sum, Difference, Modulus;
    t := Exec(p.guard, SubqA(n, r), s);
    StepOf(p, s0, s, SubqA(n, r));
  }

  lemma StepLsl8(p: Program, s0: Cpu, s: Cpu, sz: Size, r: DReg) returns (t: Cpu)
    requires Reaches(p, s0, s) && !s.fault
    requires Code(p.routine, s.pc) == Some(Lsl8(sz, r))
    ensures Reaches(p, s0, t)
    ensures var x := Low(GetD(s, r), sz) * 0x100;
      t == Result(Skip(s, 2), r, sz, x % Modulus(sz), x / Modulus(sz) % 2 == 1)
  {
    hide Reaches, Code, MayLoad, Load, Wrap, BitAnd, Result, SetFlags, Merge, Low, Sum, Difference, Modulus;
    t := Exec(p.guard, Lsl8(sz, r), s);
    StepOf(p, s0, s, Lsl8(sz, r));
  }

  lemma StepLsr1(p: Program, s0: Cpu, s: Cpu, r: DReg) returns (t: Cpu)
    requires Reaches(p, s0, s) && !s.fault
    requires Code(p.routine, s.pc) == Some(Lsr1(r))
    ensures Reaches(p, s0, t)
    ensures t == Result(Skip(s, 2), r, L, GetD(s, r) / 2, GetD(s, r) % 2 == 1)
  {
    hide Reaches, Code, MayLoad, Load, Wrap, BitAnd, Result, SetFlags, Merge, Low, Sum, Difference, Modulus;
    t := Exec(p.guard, Lsr1(r), s);
    StepOf(p, s0, s, Lsr1(r));
  }

  lemma StepNot(p: Program, s0: Cpu, s: Cpu, r: DReg) returns (t: Cpu)
    requires Reaches(p, s0, s) && !s.fault
    requires Code(p.routine, s.pc) == Some(Not(r))
    ensures Reaches(p, s0, t)
    ensures t == Result(Skip(s, 2), r, L, TWO32 - 1 - GetD(s, r), false)
  {
    hide Reaches, Code, MayLoad, Load, Wrap, BitAnd, Result, SetFlags, Merge, Low, Sum, Difference, Modulus;
    t := Exec(p.guard, Not(r), s);
    StepOf(p, s0, s, Not(r));
  }

  lemma StepSwap(p: Program, s0: Cpu, s: Cpu, r: DReg) returns (t: Cpu)
    requires Reaches(p, s0, s) && !s.fault
    requires Code(p.routine, s.pc) == Some(Swap(r))
    ensures Reaches(p, s0, t)
    ensures t == Result(Skip(s, 2), r, L, GetD(s, r) % 0x1_0000 * 0x1_0000 + GetD(s, r) / 0x1_0000, false)
  {
    hide Reaches, Code, MayLoad, Load, Wrap, BitAnd, Result, SetFlags, Merge, Low, Sum, Difference, Modulus;
    t := Exec(p.guard, Swap(r), s);
    StepOf(p, s0, s, Swap(r));
  }

  lemma StepBcc(p: Program, s0: Cpu, s: Cpu, c: Cond, disp: int) returns (t: Cpu)
    requires Reaches(p, s0, s) && !s.fault
    requires Code(p.routine, s.pc) == Some(Bcc(c, disp))
    ensures Reaches(p, s0, t)
    ensures t == Skip(s, if Holds(s, c) then 2 + disp else 2)
  {
    hide Reaches, Code, MayLoad, Load, Wrap, BitAnd, Result, SetFlags, Merge, Low, Sum, Difference, Modulus;
    t := Exec(p.guard, Bcc(c, disp), s);
    StepOf(p, s0, s, Bcc(c, disp));
  }

  lemma StepDbf(p: Program, s0: Cpu, s: Cpu, r: DReg, disp: int) returns (t: Cpu)
    requires Reaches(p, s0, s) && !s.fault
    requires Code(p.routine, s.pc) == Some(Dbf(r, disp))
    ensures Reaches(p, s0, t)
    ensures var x := Low(GetD(s, r), W);
      t == SetD(Skip(s, if x == 0 then 4 else 2 + disp), r, Merge(GetD(s, r), W, Difference(x, 1, W)))
  {
    hide Reaches, Code, MayLoad, Load, Wrap, BitAnd, Result, SetFlags, Merge, Low, Sum, Difference, Modulus;
    t := Exec(p.guard, Dbf(r, disp), s);
    StepOf(p, s0, s, Dbf(r, disp));
  }

  /** `cmp.b (an),dn` */
  lemma StepCmpByte(p: Program, s0: Cpu, s: Cpu, a: AReg, r: DReg) returns (t: Cpu)
    requires Reaches(p, s0, s) && !s.fault
    requires Code(p.routine, s.pc) == Some(Cmp(B, Ind(a), r))
    requires MayLoad(p.guard, s.mem, GetA(s, a), B)
    ensures Reaches(p, s0, t)
    ensures var x, y := Low(GetD(s, r), B), Load(s.mem, GetA(s, a), B);
      t == SetFlags(Skip(s, 2), B, Difference(x, y, B), x < y)
  {
    hide Reaches, Code, MayLoad, Load, Wrap, BitAnd, Result, SetFlags, Merge, Low, Sum, Difference, Modulus;
    t := Exec(p.guard, Cmp(B, Ind(a), r), s);
    StepOf(p, s0, s, Cmp(B, Ind(a), r));
  }

  /** `tst.b (an)+` */
  lemma StepTstByte(p: Program, s0: Cpu, s: Cpu, a: AReg) returns (t: Cpu)
    requires Reaches(p, s0, s) && !s.fault
    requires Code(p.routine, s.pc) == Some(Tst(B, PostInc(a)))
    requires MayLoad(p.guard, s.mem, GetA(s, a), B)
    ensures Reaches(p, s0, t)
    ensures t == SetFlags(SetA(Skip(s, 2), a, Wrap(GetA(s, a) + 1)), B, Load(s.mem, GetA(s, a), B), false)
  {
    hide Reaches, Code, MayLoad, Load, Wrap, BitAnd, Result, SetFlags, Merge, Low, Sum, Difference, Modulus;
    t := Exec(p.guard, Tst(B, PostInc(a)), s);
    StepOf(p, s0, s, Tst(B, PostInc(a)));
  }

  /** `move.b (an)+,dn` */
  lemma StepLoadByte(p: Program, s0: Cpu, s: Cpu, a: AReg, r: DReg) returns (t: Cpu)
    requires Reaches(p, s0, s) && !s.fault
    requires Code(p.routine, s.pc) == Some(Move(B, PostInc(a), D(r)))
    requires MayLoad(p.guard, s.mem, GetA(s, a), B)
    ensures Reaches(p, s0, t)
    ensures t == Result(SetA(Skip(s, 2), a, Wrap(GetA(s, a) + 1)), r, B, Load(s.mem, GetA(s, a), B), false)
  {
    hide Reaches, Code, MayLoad, Load, Wrap, BitAnd, Result, SetFlags, Merge, Low, Sum, Difference, Modulus;
    t := Exec(p.guard, Move(B, PostInc(a), D(r)), s);
    StepOf(p, s0, s, Move(B, PostInc(a), D(r)));
  }

  /** Memory-to-memory move, ascending. */
  lemma StepMoveUp(p: Program, s0: Cpu, s: Cpu, sz: Size) returns (t: Cpu)
    requires Reaches(p, s0, s) && !s.fault
    requires Code(p.routine, s.pc) == Some(Move(sz, PostInc(A1), PostInc(A0)))
    requires MayLoad(p.guard, s.mem, s.a1, sz) && MayStore(p.guard, s.mem, s.a0, sz)
    ensures Reaches(p, s0, t) && t == Exec(p.guard, Move(sz, PostInc(A1), PostInc(A0)), s)
    ensures var v := Load(s.mem, s.a1, sz);
      t == SetFlags(s.(pc := s.pc + 2, a0 := Wrap(s.a0 + Bytes(sz)), a1 := Wrap(s.a1 + Bytes(sz)),
                       mem := Store(s.mem, s.a0, sz, v), moves := s.moves + 1), sz, v, false)
  {
    hide Reaches, Code, MayLoad, MayStore, Load, Store, Wrap, SetFlags, Bytes;
    t := Exec(p.guard, Move(sz, PostInc(A1), PostInc(A0)), s);
    StepOf(p, s0, s, Move(sz, PostInc(A1), PostInc(A0)));
  }

  /** Memory-to-memory move, descending. */
  lemma StepMoveDown(p: Program, s0: Cpu, s: Cpu, sz: Size) returns (t: Cpu)
    requires Reaches(p, s0, s) && !s.fault
    requires Code(p.routine, s.pc) == Some(Move(sz, PreDec(A1), PreDec(A0)))
    requires MayLoad(p.guard, s.mem, Wrap(s.a1 - Bytes(sz)), sz) && MayStore(p.guard, s.mem, Wrap(s.a0 - Bytes(sz)), sz)
    ensures Reaches(p, s0, t) && t == Exec(p.guard, Move(sz, PreDec(A1), PreDec(A0)), s)
    ensures var d, o := Wrap(s.a0 - Bytes(sz)), Wrap(s.a1 - Bytes(sz));
      var v := Load(s.mem, o, sz);
      t == SetFlags(s.(pc := s.pc + 2, a0 := d, a1 := o, mem := Store(s.mem, d, sz, v), moves := s.moves + 1),
                    sz, v, false)
  {
    hide Reaches, Code, MayLoad, MayStore, Load, Store, Wrap, SetFlags, Bytes;
    t := Exec(p.guard, Move(sz, PreDec(A1), PreDec(A0)), s);
    StepOf(p, s0, s, Move(sz, PreDec(A1), PreDec(A0)));
  }

  /** Store of the low part of d0, ascending. */
  lemma StepStoreUp(p: Program, s0: Cpu, s: Cpu, sz: Size) returns (t: Cpu)
    requires Reaches(p, s0, s) && !s.fault
    requires Code(p.routine, s.pc) == Some(Move(sz, D(D0), PostInc(A0)))
    requires MayStore(p.guard, s.mem, s.a0, sz)
    ensures Reaches(p, s0, t) && t == Exec(p.guard, Move(sz, D(D0), PostInc(A0)), s)
    ensures var v := Low(s.d0, sz);
      t == SetFlags(s.(pc := s.pc + 2, a0 := Wrap(s.a0 + Bytes(sz)),
                       mem := Store(s.mem, s.a0, sz, v), moves := s.moves + 1), sz, v, false)
  {
    hide Reaches, Code, MayStore, Store, Wrap, SetFlags, Low, Bytes;
    t := Exec(p.guard, Move(sz, D(D0), PostInc(A0)), s);
    StepOf(p, s0, s, Move(sz, D(D0), PostInc(A0)));
  }

  /** An `and.b` with 1 on either side leaves the parity of the other side, and tests it. */
  lemma StepParity(p: Program, s0: Cpu, s: Cpu, src: Operand, r: DReg, x: u32) returns (t: Cpu)
    requires Reaches(p, s0, s) && !s.fault && Plain(src)
    requires Code(p.routine, s.pc) == Some(And(B, src, r))
    requires (Low(GetD(s, r), B), PlainValue(s, src, B)) in {(1, Low(x, B)), (Low(x, B), 1)}
    ensures Reaches(p, s0, t)
    ensures t == Result(Skip(s, Length(And(B, src, r))), r, B, x % 2, false)
  {
    hide Reaches, Code, BitAnd, Result;
    t := StepAnd(p, s0, s, B, src, r);
    BitAndOne(Low(x, B));
  }

  /** `move.b (a1),(a0)+` */
  lemma StepMoveStay(p: Program, s0: Cpu, s: Cpu) returns (t: Cpu)
    requires Reaches(p, s0, s) && !s.fault
    requires Code(p.routine, s.pc) == Some(Move(B, Ind(A1), PostInc(A0)))
    requires MayLoad(p.guard, s.mem, s.a1, B) && MayStore(p.guard, s.mem, s.a0, B)
    ensures Reaches(p, s0, t)
    ensures var v := Load(s.mem, s.a1, B);
      t == SetFlags(s.(pc := s.pc + 2, a0 := Wrap(s.a0 + 1), mem := Store(s.mem, s.a0, B, v), moves := s.moves + 1),
                    B, v, false)
  {
    hide Reaches, Code, MayLoad, MayStore, Load, Store, Wrap, SetFlags;
    t := Exec(p.guard, Move(B, Ind(A1), PostInc(A0)), s);
    StepOf(p, s0, s, Move(B, Ind(A1), PostInc(A0)));
  }

  /** The value of a register is halved, and a branch taken when it was even. */
  lemma StepHalve(p: Program, s0: Cpu, s: Cpu, src: Operand, r: DReg, disp: int) returns (t: Cpu)
    requires Reaches(p, s0, s) && !s.fault && Plain(src) && !src.Imm?
    requires Code(p.routine, s.pc) == Some(Move(L, src, D(r)))
    requires Code(p.routine, s.pc + 2) == Some(Lsr1(r))
    requires Code(p.routine, s.pc + 4) == Some(Bcc(CC, disp))
    ensures Reaches(p, s0, t)
    ensures var x := PlainValue(s, src, L);
      t == SetD(s, r, x / 2).(pc := if x % 2 == 0 then s.pc + 6 + disp else s.pc + 6,
                              cf := x % 2 == 1, nf := t.nf, zf := t.zf)
  {
    hide Reaches, Code, Merge, Low;
    t := StepMoveToD(p, s0, s, L, src, r);
    t := StepLsr1(p, s0, t, r);
    t := StepBcc(p, s0, t, CC, disp);
  }
}
