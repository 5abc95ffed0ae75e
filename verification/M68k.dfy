/** A small-step model of the part of the 68k that the string routines use: two address and
    three data registers, the C, N and Z flags, byte-addressed big-endian memory, and the
    instructions with their encoded lengths, so that a branch displacement means what it means
    in the assembler text (address of the opcode word, plus 2, plus the displacement). */
module M68k {
  import opened Words

  datatype Size = B | W | L

  datatype DReg = D0 | D1 | D2

  datatype AReg = A0 | A1

  datatype Operand =
    | D(d: DReg)
    | A(a: AReg)
    | Imm(v: u32)
    | Ind(a: AReg)
    | PostInc(a: AReg)
    | PreDec(a: AReg)

  /** Branch conditions; `blo` is another name of `bcs`. */
  datatype Cond = RA | EQ | NE | CC | CS | PL | MI

  datatype Instr =
    | Move(sz: Size, src: Operand, dst: Operand)
    | Moveq(n: u32, r: DReg)
    | Tst(sz: Size, src: Operand)
    | Cmp(sz: Size, src: Operand, r: DReg)
    | And(sz: Size, src: Operand, r: DReg)
    | Sub(sz: Size, src: Operand, r: DReg)
    | Addq(sz: Size, n: u32, r: DReg)
    | Subq(sz: Size, n: u32, r: DReg)
    | AddqA(n: u32, a: AReg)
    | SubqA(n: u32, a: AReg)
    | Lsl8(sz: Size, r: DReg)
    | Lsr1(r: DReg)
    | Not(r: DReg)
    | Swap(r: DReg)
    | Bcc(cond: Cond, disp: int)
    | Dbf(r: DReg, disp: int)

  function Bytes(sz: Size): int {
    match sz
    case B => 1
    case W => 2
    case L => 4
  }

  function Modulus(sz: Size): int {
    match sz
    case B => 0x100
    case W => 0x1_0000
    case L => 0x1_0000_0000
  }

  /** Encoded length of an instruction in bytes. */
  function Length(i: Instr): (n: int)
    ensures 0 < n
  {
    match i
    case Cmp(L, Imm(_), _) => 6
    case And(L, Imm(_), _) => 6
    case Cmp(_, Imm(_), _) => 4
    case And(_, Imm(_), _) => 4
    case Move(L, Imm(_), _) => 6
    case Move(_, Imm(_), _) => 4
    case Dbf(_, _) => 4
    case _ => 2
  }

  /** An address range [lo, hi). */
  datatype Region = Region(lo: int, hi: int)

  const EVERYWHERE := Region(0, TWO32)

  /** What alignment a memory access must have: none, even word and long addresses (the 68000
      raises an address error otherwise), or stores aligned to their own size. */
  datatype Alignment = AnyAddress | EvenAddresses | AlignedStores

  /** The accesses a run is allowed to make; any other access stops it with a fault. The guard
      of a real processor allows all of memory; a tight guard turns a footprint or an alignment
      claim into the absence of a fault. */
  datatype Guard = Guard(read1: Region, read2: Region, write: Region, align: Alignment)

  /** `moves` counts the stores to memory. */
  datatype Cpu = Cpu(d0: u32, d1: u32, d2: u32, a0: u32, a1: u32,
                     cf: bool, nf: bool, zf: bool, pc: int,
                     mem: seq<byte>, moves: nat, fault: bool)

  function GetD(s: Cpu, r: DReg): u32 {
    match r
    case D0 => s.d0
    case D1 => s.d1
    case D2 => s.d2
  }

  function SetD(s: Cpu, r: DReg, v: u32): Cpu {
    match r
    case D0 => s.(d0 := v)
    case D1 => s.(d1 := v)
    case D2 => s.(d2 := v)
  }

  function GetA(s: Cpu, r: AReg): u32 {
    match r
    case A0 => s.a0
    case A1 => s.a1
  }

  function SetA(s: Cpu, r: AReg, v: u32): Cpu {
    match r
    case A0 => s.(a0 := v)
    case A1 => s.(a1 := v)
  }

  // ---------- memory ----------

  function Load(m: seq<byte>, a: int, sz: Size): (v: u32)
    requires 0 <= a && a + Bytes(sz) <= |m|
    ensures v < Modulus(sz)
  {
    var b0: int := m[a];
    match sz
    case B => b0
    case W =>
      var b1: int := m[a + 1];
      b0 * 0x100 + b1
    case L =>
      var b1: int, b2: int, b3: int := m[a + 1], m[a + 2], m[a + 3];
      b0 * 0x100_0000 + b1 * 0x1_0000 + b2 * 0x100 + b3
  }

  function Store(m: seq<byte>, a: int, sz: Size, v: u32): (r: seq<byte>)
    requires 0 <= a && a + Bytes(sz) <= |m|
    ensures |r| == |m|
  {
    match sz
    case B => m[a := v % 0x100]
    case W => m[a := v / 0x100 % 0x100][a + 1 := v % 0x100]
    case L => m[a := v / 0x100_0000][a + 1 := v / 0x1_0000 % 0x100][a + 2 := v / 0x100 % 0x100][a + 3 := v % 0x100]
  }

  predicate Inside(r: Region, a: int, n: int) {
    r.lo <= a && a + n <= r.hi
  }

  predicate AlignedLoad(g: Guard, a: int, sz: Size) {
    g.align == EvenAddresses && sz != B ==> a % 2 == 0
  }

  predicate AlignedStore(g: Guard, a: int, sz: Size) {
    match g.align
    case AnyAddress => true
    case EvenAddresses => sz != B ==> a % 2 == 0
    case AlignedStores => a % Bytes(sz) == 0
  }

  predicate MayLoad(g: Guard, m: seq<byte>, a: int, sz: Size) {
    && 0 <= a && a + Bytes(sz) <= |m|
    && (Inside(g.read1, a, Bytes(sz)) || Inside(g.read2, a, Bytes(sz)))
    && AlignedLoad(g, a, sz)
  }

  predicate MayStore(g: Guard, m: seq<byte>, a: int, sz: Size) {
    && 0 <= a && a + Bytes(sz) <= |m|
    && Inside(g.write, a, Bytes(sz))
    && AlignedStore(g, a, sz)
  }

  // ---------- operands ----------

  /** A source operand: its value and the state after any address update, or a refused access. */
  datatype Fetched = Trap | Got(v: u32, s: Cpu)

  function LoadAt(g: Guard, s: Cpu, a: u32, sz: Size, next: Cpu): Fetched {
    if MayLoad(g, s.mem, a, sz) then Got(Load(s.mem, a, sz), next) else Trap
  }

  function Source(g: Guard, s: Cpu, o: Operand, sz: Size): Fetched {
    match o
    case D(r) => Got(Low(GetD(s, r), sz), s)
    case A(r) => Got(Low(GetA(s, r), sz), s)
    case Imm(v) => Got(Low(v, sz), s)
    case Ind(r) => LoadAt(g, s, GetA(s, r), sz, s)
    case PostInc(r) => LoadAt(g, s, GetA(s, r), sz, SetA(s, r, Wrap(GetA(s, r) + Bytes(sz))))
    case PreDec(r) =>
      var a := Wrap(GetA(s, r) - Bytes(sz));
      LoadAt(g, s, a, sz, SetA(s, r, a))
  }

  function Fault(s: Cpu): Cpu {
    s.(fault := true)
  }

  function StoreAt(g: Guard, s: Cpu, a: u32, sz: Size, v: u32): Cpu {
    if MayStore(g, s.mem, a, sz) then s.(mem := Store(s.mem, a, sz, v), moves := s.moves + 1)
    else Fault(s)
  }

  /** Writing part of a data register keeps the rest of it. */
  function Merge(x: u32, sz: Size, v: u32): (r: u32)
    ensures sz == L ==> r == v
    ensures x < Modulus(sz) && v < Modulus(sz) ==> r == v
  {
    x - Low(x, sz) + Low(v, sz)
  }

  function Put(g: Guard, s: Cpu, o: Operand, sz: Size, v: u32): Cpu {
    match o
    case Ind(r) => StoreAt(g, s, GetA(s, r), sz, v)
    case PostInc(r) => StoreAt(g, SetA(s, r, Wrap(GetA(s, r) + Bytes(sz))), GetA(s, r), sz, v)
    case PreDec(r) =>
      var a := Wrap(GetA(s, r) - Bytes(sz));
      StoreAt(g, SetA(s, r, a), a, sz, v)
    case _ => Fault(s)
  }

  /** The part of a register an operation of the given size works on. */
  function Low(x: u32, sz: Size): (r: u32)
    ensures r < Modulus(sz)
    ensures x < Modulus(sz) ==> r == x
  {
    x % Modulus(sz)
  }

  function Sum(x: u32, y: u32, sz: Size): (r: u32)
    ensures x + y < Modulus(sz) ==> r == x + y
    ensures Modulus(sz) <= x + y < 2 * Modulus(sz) ==> r == x + y - Modulus(sz)
  {
    (x + y) % Modulus(sz)
  }

  function Difference(x: u32, y: u32, sz: Size): (r: u32)
    ensures 0 <= x - y < Modulus(sz) ==> r == x - y
    ensures -Modulus(sz) <= x - y < 0 ==> r == x - y + Modulus(sz)
  {
    (x - y) % Modulus(sz)
  }

  function SetFlags(s: Cpu, sz: Size, v: int, c: bool): (t: Cpu)
    ensures t.mem == s.mem && t.a0 == s.a0 && t.a1 == s.a1 && t.fault == s.fault
  {
    s.(cf := c, zf := v == 0, nf := v >= Modulus(sz) / 2)
  }

  /** Result of an operation on a data register: the low part replaced, the flags set. */
  function Result(s: Cpu, r: DReg, sz: Size, v: u32, c: bool): (t: Cpu)
    ensures t.mem == s.mem && t.a0 == s.a0 && t.a1 == s.a1 && t.fault == s.fault
  {
    SetFlags(SetD(s, r, Merge(GetD(s, r), sz, v)), sz, v, c)
  }

  predicate Holds(s: Cpu, c: Cond) {
    match c
    case RA => true
    case EQ => s.zf
    case NE => !s.zf
    case CC => !s.cf
    case CS => s.cf
    case PL => !s.nf
    case MI => s.nf
  }

  function Skip(s: Cpu, n: int): Cpu {
    s.(pc := s.pc + n)
  }

  // ---------- instructions ----------

  function ExecMove(g: Guard, sz: Size, src: Operand, dst: Operand, s: Cpu): Cpu {
    match Source(g, s, src, sz)
    case Trap => Fault(s)
    case Got(v, s1) =>
      (match dst
       case D(r) => Result(s1, r, sz, v, false)
       case A(r) => SetA(s1, r, v)
       case _ => SetFlags(Put(g, s1, dst, sz, v), sz, v, false))
  }

  function ExecTst(g: Guard, sz: Size, src: Operand, s: Cpu): Cpu {
    match Source(g, s, src, sz)
    case Trap => Fault(s)
    case Got(v, s1) => SetFlags(s1, sz, v, false)
  }

  function ExecCmp(g: Guard, sz: Size, src: Operand, r: DReg, s: Cpu): Cpu {
    match Source(g, s, src, sz)
    case Trap => Fault(s)
    case Got(y, s1) =>
      var x := Low(GetD(s1, r), sz);
      SetFlags(s1, sz, Difference(x, y, sz), x < y)
  }

  function ExecAnd(g: Guard, sz: Size, src: Operand, r: DReg, s: Cpu): Cpu {
    match Source(g, s, src, sz)
    case Trap => Fault(s)
    case Got(y, s1) =>
      var v := BitAnd(Low(GetD(s1, r), sz), y);
      Result(s1, r, sz, v, false)
  }

  function ExecSub(g: Guard, sz: Size, src: Operand, r: DReg, s: Cpu): Cpu {
    match Source(g, s, src, sz)
    case Trap => Fault(s)
    case Got(y, s1) =>
      var x := Low(GetD(s1, r), sz);
      Result(s1, r, sz, Difference(x, y, sz), x < y)
  }

  function ExecAddq(sz: Size, n: u32, r: DReg, s: Cpu): Cpu {
    var x := Low(GetD(s, r), sz);
    Result(s, r, sz, Sum(x, n, sz), x + n >= Modulus(sz))
  }

  function ExecSubq(sz: Size, n: u32, r: DReg, s: Cpu): Cpu {
    var x := Low(GetD(s, r), sz);
    Result(s, r, sz, Difference(x, n, sz), x < n)
  }

  function ExecLsl8(sz: Size, r: DReg, s: Cpu): Cpu {
    var x := Low(GetD(s, r), sz);
    Result(s, r, sz, x * 0x100 % Modulus(sz), x * 0x100 / Modulus(sz) % 2 == 1)
  }

  function ExecLsr1(r: DReg, s: Cpu): Cpu {
    var x := GetD(s, r);
    Result(s, r, L, x / 2, x % 2 == 1)
  }

  function ExecNot(r: DReg, s: Cpu): Cpu {
    Result(s, r, L, TWO32 - 1 - GetD(s, r), false)
  }

  function ExecSwap(r: DReg, s: Cpu): Cpu {
    var x := GetD(s, r);
    Result(s, r, L, x % 0x1_0000 * 0x1_0000 + x / 0x1_0000, false)
  }

  /** Decrement the low word and branch unless it became -1; no flag changes. */
  function ExecDbf(r: DReg, disp: int, s: Cpu): Cpu {
    var x := Low(GetD(s, r), W);
    var s1 := SetD(s, r, Merge(GetD(s, r), W, Difference(x, 1, W)));
    if x == 0 then Skip(s1, 4) else Skip(s1, 2 + disp)
  }

  function Exec(g: Guard, i: Instr, s: Cpu): Cpu {
    var next := Skip(s, Length(i));
    match i
    case Move(sz, src, dst) => ExecMove(g, sz, src, dst, next)
    case Moveq(n, r) => Result(next, r, L, n, false)
    case Tst(sz, src) => ExecTst(g, sz, src, next)
    case Cmp(sz, src, r) => ExecCmp(g, sz, src, r, next)
    case And(sz, src, r) => ExecAnd(g, sz, src, r, next)
    case Sub(sz, src, r) => ExecSub(g, sz, src, r, next)
    case Addq(sz, n, r) => ExecAddq(sz, n, r, next)
    case Subq(sz, n, r) => ExecSubq(sz, n, r, next)
    case AddqA(n, r) => SetA(next, r, Wrap(GetA(s, r) + n))
    case SubqA(n, r) => SetA(next, r, Wrap(GetA(s, r) - n))
    case Lsl8(sz, r) => ExecLsl8(sz, r, next)
    case Lsr1(r) => ExecLsr1(r, next)
    case Not(r) => ExecNot(r, next)
    case Swap(r) => ExecSwap(r, next)
    case Bcc(cond, disp) => if Holds(s, cond) then Skip(s, 2 + disp) else next
    case Dbf(r, disp) => ExecDbf(r, disp, s)
  }
}
