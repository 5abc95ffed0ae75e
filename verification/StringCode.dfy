/** The inline assembler of the string routines, instruction by instruction, at its byte offsets.
    The routines with two versions carry the processor they are for: 000 for the 68000 and
    68010, 020 for the 68020 and later. */
module StringCode {
  import opened M68k
  import opened Options

  datatype Routine =
    | Memcpy000 | MemcpyDesc000 | Memset000
    | Memcpy020 | MemcpyDesc020 | Memset020
    | Strlen | Strcpy | Strncpy | Strcmp | Strncmp | Strcat | Strrchr

  /** The instruction that starts at byte offset pc, if one does. */
  function Code(r: Routine, pc: int): Option<Instr> {
    match r
    case Memcpy000 => Memcpy000Code(pc)
    case MemcpyDesc000 => MemcpyDesc000Code(pc)
    case Memset000 => Memset000Code(pc)
    case Memcpy020 => Memcpy020Code(pc)
    case MemcpyDesc020 => MemcpyDesc020Code(pc)
    case Memset020 => Memset020Code(pc)
    case Strlen => StrlenCode(pc)
    case Strcpy => StrcpyCode(pc)
    case Strncpy => StrncpyCode(pc)
    case Strcmp => StrcmpCode(pc)
    case Strncmp => StrncmpCode(pc)
    case Strcat => StrcatCode(pc)
    case Strrchr => StrrchrCode(pc)
  }

  /** Where the code of a routine ends and execution leaves it. */
  function End(r: Routine): int {
    match r
    case Memcpy000 => 68
    case MemcpyDesc000 => 68
    case Memset000 => 60
    case Memcpy020 => 46
    case MemcpyDesc020 => 44
    case Memset020 => 64
    case Strlen => 10
    case Strcpy => 6
    case Strncpy => 14
    case Strcmp => 18
    case Strncmp => 22
    case Strcat => 12
    case Strrchr => 12
  }

  /** Where execution can go: an instruction or the end. */
  predicate Reachable(r: Routine, pc: int) {
    Code(r, pc).Some? || pc == End(r)
  }

  /** Instruction i at offset pc is placed as in a contiguous listing: nothing starts inside it, the
      next one starts right behind it, and its branch displacement, if it has one, leads to the
      start of an instruction or to the end. */
  predicate Placed(r: Routine, pc: int, i: Instr) {
    && (forall x :: pc < x < pc + Length(i) ==> Code(r, x) == None)
    && Reachable(r, pc + Length(i))
    && (i.Bcc? || i.Dbf? ==> Reachable(r, pc + 2 + i.disp))
  }

  /** Every listing starts at 0 and is contiguous, and no branch leaves it or lands inside an
      instruction. */
  lemma WellPlaced(r: Routine, pc: int, i: Instr)
    requires Code(r, pc) == Some(i)
    ensures 0 <= pc < End(r) && Code(r, 0).Some? && Placed(r, pc, i)
  {
    hide Placed;
    match r
    case Memcpy000 =>
      if pc < 28 { PlaceMemcpy000Start(pc, i); }
      else if pc < 44 { PlaceMemcpy000Bytes(pc, i); }
      else { PlaceMemcpy000Longs(pc, i); }
    case MemcpyDesc000 =>
      if pc < 26 { PlaceMemcpyDesc000Start(pc, i); }
      else if pc < 42 { PlaceMemcpyDesc000Bytes(pc, i); }
      else { PlaceMemcpyDesc000Longs(pc, i); }
    case Memset000 => if pc < 34 { PlaceMemset000Start(pc, i); } else { PlaceMemset000Rest(pc, i); }
    case Memcpy020 => if pc < 20 { PlaceMemcpy020Start(pc, i); } else { PlaceMemcpy020Rest(pc, i); }
    case MemcpyDesc020 => if pc < 16 { PlaceMemcpyDesc020Start(pc, i); } else { PlaceMemcpyDesc020Rest(pc, i); }
    case Memset020 => if pc < 32 { PlaceMemset020Start(pc, i); } else { PlaceMemset020Rest(pc, i); }
    case Strlen => PlaceStrlen(pc, i);
    case Strcpy => PlaceStrcpy(pc, i);
    case Strncpy => PlaceStrncpy(pc, i);
    case Strcmp => PlaceStrcmp(pc, i);
    case Strncmp => PlaceStrncmp(pc, i);
    case Strcat => PlaceStrcat(pc, i);
    case Strrchr => PlaceStrrchr(pc, i);
  }

  lemma PlaceMemcpy000Start(pc: int, i: Instr)
    requires Code(Memcpy000, pc) == Some(i) && pc < 28
    ensures Placed(Memcpy000, pc, i)
  {
  }

  lemma PlaceMemcpy000Bytes(pc: int, i: Instr)
    requires Code(Memcpy000, pc) == Some(i) && 28 <= pc < 44
    ensures Placed(Memcpy000, pc, i)
  {
  }

  lemma PlaceMemcpy000Longs(pc: int, i: Instr)
    requires Code(Memcpy000, pc) == Some(i) && 44 <= pc
    ensures Placed(Memcpy000, pc, i)
  {
  }

  lemma PlaceMemcpyDesc000Start(pc: int, i: Instr)
    requires Code(MemcpyDesc000, pc) == Some(i) && pc < 26
    ensures Placed(MemcpyDesc000, pc, i)
  {
  }

  lemma PlaceMemcpyDesc000Bytes(pc: int, i: Instr)
    requires Code(MemcpyDesc000, pc) == Some(i) && 26 <= pc < 42
    ensures Placed(MemcpyDesc000, pc, i)
  {
  }

  lemma PlaceMemcpyDesc000Longs(pc: int, i: Instr)
    requires Code(MemcpyDesc000, pc) == Some(i) && 42 <= pc
    ensures Placed(MemcpyDesc000, pc, i)
  {
  }

  lemma PlaceMemset000Start(pc: int, i: Instr)
    requires Code(Memset000, pc) == Some(i) && pc < 34
    ensures Placed(Memset000, pc, i)
  {
  }

  lemma PlaceMemset000Rest(pc: int, i: Instr)
    requires Code(Memset000, pc) == Some(i) && 34 <= pc
    ensures Placed(Memset000, pc, i)
  {
  }

  lemma PlaceMemcpy020Start(pc: int, i: Instr)
    requires Code(Memcpy020, pc) == Some(i) && pc < 20
    ensures Placed(Memcpy020, pc, i)
  {
  }

  lemma PlaceMemcpy020Rest(pc: int, i: Instr)
    requires Code(Memcpy020, pc) == Some(i) && 20 <= pc
    ensures Placed(Memcpy020, pc, i)
  {
  }

  lemma PlaceMemcpyDesc020Start(pc: int, i: Instr)
    requires Code(MemcpyDesc020, pc) == Some(i) && pc < 16
    ensures Placed(MemcpyDesc020, pc, i)
  {
  }

  lemma PlaceMemcpyDesc020Rest(pc: int, i: Instr)
    requires Code(MemcpyDesc020, pc) == Some(i) && 16 <= pc
    ensures Placed(MemcpyDesc020, pc, i)
  {
  }

  lemma PlaceMemset020Start(pc: int, i: Instr)
    requires Code(Memset020, pc) == Some(i) && pc < 32
    ensures Placed(Memset020, pc, i)
  {
  }

  lemma PlaceMemset020Rest(pc: int, i: Instr)
    requires Code(Memset020, pc) == Some(i) && 32 <= pc
    ensures Placed(Memset020, pc, i)
  {
  }

  lemma PlaceStrlen(pc: int, i: Instr)
    requires Code(Strlen, pc) == Some(i)
    ensures Placed(Strlen, pc, i)
  {
  }

  lemma PlaceStrcpy(pc: int, i: Instr)
    requires Code(Strcpy, pc) == Some(i)
    ensures Placed(Strcpy, pc, i)
  {
  }

  lemma PlaceStrncpy(pc: int, i: Instr)
    requires Code(Strncpy, pc) == Some(i)
    ensures Placed(Strncpy, pc, i)
  {
  }

  lemma PlaceStrcmp(pc: int, i: Instr)
    requires Code(Strcmp, pc) == Some(i)
    ensures Placed(Strcmp, pc, i)
  {
  }

  lemma PlaceStrncmp(pc: int, i: Instr)
    requires Code(Strncmp, pc) == Some(i)
    ensures Placed(Strncmp, pc, i)
  {
  }

  lemma PlaceStrcat(pc: int, i: Instr)
    requires Code(Strcat, pc) == Some(i)
    ensures Placed(Strcat, pc, i)
  {
  }

  lemma PlaceStrrchr(pc: int, i: Instr)
    requires Code(Strrchr, pc) == Some(i)
    ensures Placed(Strrchr, pc, i)
  {
  }

  function Memcpy000Code(pc: int): Option<Instr> {
    if pc < 28 then Memcpy000Start(pc) else Memcpy000Rest(pc)
  }

  function Memcpy000Start(pc: int): Option<Instr> {
    match pc
    case 0 => Some(Move(L, A(A0), D(D0)))
    case 2 => Some(Cmp(L, Imm(16), D2))
    case 8 => Some(Bcc(CS, 48))
    case 10 => Some(Moveq(1, D1))
    case 12 => Some(And(B, D(D0), D1))
    case 14 => Some(Bcc(EQ, 4))
    case 16 => Some(Move(B, PostInc(A1), PostInc(A0)))
    case 18 => Some(Subq(L, 1, D2))
    case 20 => Some(Move(L, A(A1), D(D1)))
    case 22 => Some(And(B, Imm(1), D1))
    case 26 => Some(Bcc(EQ, 16))
    case _ => None
  }

  function Memcpy000Rest(pc: int): Option<Instr> {
    match pc
    case 28 => Some(Cmp(L, Imm(0x1_0000), D2))
    case 34 => Some(Bcc(CS, 22))
    case 36 => Some(Move(B, PostInc(A1), PostInc(A0)))
    case 38 => Some(Subq(L, 1, D2))
    case 40 => Some(Bcc(NE, -6))
    case 42 => Some(Bcc(RA, 24))
    case 44 => Some(Moveq(3, D1))
    case 46 => Some(And(L, D(D2), D1))
    case 48 => Some(Sub(L, D(D1), D2))
    case 50 => Some(Move(L, PostInc(A1), PostInc(A0)))
    case 52 => Some(Subq(L, 4, D2))
    case 54 => Some(Bcc(NE, -6))
    case 56 => Some(Move(W, D(D1), D(D2)))
    case 58 => Some(Subq(W, 1, D2))
    case 60 => Some(Bcc(CS, 6))
    case 62 => Some(Move(B, PostInc(A1), PostInc(A0)))
    case 64 => Some(Dbf(D2, -4))
    case _ => None
  }

  function MemcpyDesc000Code(pc: int): Option<Instr> {
    if pc < 26 then MemcpyDesc000Start(pc) else MemcpyDesc000Rest(pc)
  }

  function MemcpyDesc000Start(pc: int): Option<Instr> {
    match pc
    case 0 => Some(Cmp(L, Imm(16), D2))
    case 6 => Some(Bcc(CS, 48))
    case 8 => Some(Moveq(1, D1))
    case 10 => Some(Move(L, A(A0), D(D0)))
    case 12 => Some(And(B, D(D1), D0))
    case 14 => Some(Bcc(EQ, 4))
    case 16 => Some(Move(B, PreDec(A1), PreDec(A0)))
    case 18 => Some(Subq(L, 1, D2))
    case 20 => Some(Move(L, A(A1), D(D0)))
    case 22 => Some(And(B, D(D1), D0))
    case 24 => Some(Bcc(EQ, 16))
    case _ => None
  }

  function MemcpyDesc000Rest(pc: int): Option<Instr> {
    match pc
    case 26 => Some(Cmp(L, Imm(0x1_0000), D2))
    case 32 => Some(Bcc(CS, 22))
    case 34 => Some(Move(B, PreDec(A1), PreDec(A0)))
    case 36 => Some(Subq(L, 1, D2))
    case 38 => Some(Bcc(NE, -6))
    case 40 => Some(Bcc(RA, 24))
    case 42 => Some(Moveq(3, D1))
    case 44 => Some(And(L, D(D2), D1))
    case 46 => Some(Sub(L, D(D1), D2))
    case 48 => Some(Move(L, PreDec(A1), PreDec(A0)))
    case 50 => Some(Subq(L, 4, D2))
    case 52 => Some(Bcc(NE, -6))
    case 54 => Some(Move(W, D(D1), D(D2)))
    case 56 => Some(Subq(W, 1, D2))
    case 58 => Some(Bcc(CS, 6))
    case 60 => Some(Move(B, PreDec(A1), PreDec(A0)))
    case 62 => Some(Dbf(D2, -4))
    case 66 => Some(Move(L, A(A0), D(D0)))
    case _ => None
  }

  function Memset000Code(pc: int): Option<Instr> {
    if pc < 34 then Memset000Start(pc) else Memset000Rest(pc)
  }

  function Memset000Start(pc: int): Option<Instr> {
    match pc
    case 0 => Some(Move(L, A(A0), A(A1)))
    case 2 => Some(Cmp(L, Imm(16), D2))
    case 8 => Some(Bcc(CS, 38))
    case 10 => Some(Move(L, A(A0), D(D1)))
    case 12 => Some(And(B, Imm(1), D1))
    case 16 => Some(Bcc(EQ, 4))
    case 18 => Some(Move(B, D(D0), PostInc(A0)))
    case 20 => Some(Subq(L, 1, D2))
    case 22 => Some(Move(B, D(D0), D(D1)))
    case 24 => Some(Lsl8(W, D0))
    case 26 => Some(Move(B, D(D1), D(D0)))
    case 28 => Some(Move(W, D(D0), D(D1)))
    case 30 => Some(Swap(D0))
    case 32 => Some(Move(W, D(D1), D(D0)))
    case _ => None
  }

  function Memset000Rest(pc: int): Option<Instr> {
    match pc
    case 34 => Some(Moveq(3, D1))
    case 36 => Some(And(L, D(D2), D1))
    case 38 => Some(Sub(L, D(D1), D2))
    case 40 => Some(Move(L, D(D0), PostInc(A0)))
    case 42 => Some(Subq(L, 4, D2))
    case 44 => Some(Bcc(NE, -6))
    case 46 => Some(Move(W, D(D1), D(D2)))
    case 48 => Some(Subq(W, 1, D2))
    case 50 => Some(Bcc(CS, 6))
    case 52 => Some(Move(B, D(D0), PostInc(A0)))
    case 54 => Some(Dbf(D2, -4))
    case 58 => Some(Move(L, A(A1), D(D0)))
    case _ => None
  }

  function Memcpy020Code(pc: int): Option<Instr> {
    if pc < 20 then Memcpy020Start(pc) else Memcpy020Rest(pc)
  }

  function Memcpy020Start(pc: int): Option<Instr> {
    match pc
    case 0 => Some(Move(L, A(A0), D(D0)))
    case 2 => Some(Subq(L, 4, D2))
    case 4 => Some(Bcc(CS, 30))
    case 6 => Some(Move(L, D(D0), D(D1)))
    case 8 => Some(Lsr1(D1))
    case 10 => Some(Bcc(CC, 8))
    case 12 => Some(Move(B, PostInc(A1), PostInc(A0)))
    case 14 => Some(Subq(L, 1, D2))
    case 16 => Some(Bcc(CS, 18))
    case 18 => Some(Addq(L, 1, D1))
    case _ => None
  }

  function Memcpy020Rest(pc: int): Option<Instr> {
    match pc
    case 20 => Some(Lsr1(D1))
    case 22 => Some(Bcc(CC, 6))
    case 24 => Some(Move(W, PostInc(A1), PostInc(A0)))
    case 26 => Some(Subq(L, 2, D2))
    case 28 => Some(Bcc(CS, 6))
    case 30 => Some(Move(L, PostInc(A1), PostInc(A0)))
    case 32 => Some(Subq(L, 4, D2))
    case 34 => Some(Bcc(CC, -6))
    case 36 => Some(Addq(L, 3, D2))
    case 38 => Some(Bcc(CC, 6))
    case 40 => Some(Move(B, PostInc(A1), PostInc(A0)))
    case 42 => Some(Dbf(D2, -4))
    case _ => None
  }

  function MemcpyDesc020Code(pc: int): Option<Instr> {
    if pc < 16 then MemcpyDesc020Start(pc) else MemcpyDesc020Rest(pc)
  }

  function MemcpyDesc020Start(pc: int): Option<Instr> {
    match pc
    case 0 => Some(Subq(L, 4, D2))
    case 2 => Some(Bcc(CS, 28))
    case 4 => Some(Move(L, A(A0), D(D0)))
    case 6 => Some(Lsr1(D0))
    case 8 => Some(Bcc(CC, 6))
    case 10 => Some(Move(B, PreDec(A1), PreDec(A0)))
    case 12 => Some(Subq(L, 1, D2))
    case 14 => Some(Bcc(CS, 16))
    case _ => None
  }

  function MemcpyDesc020Rest(pc: int): Option<Instr> {
    match pc
    case 16 => Some(Lsr1(D0))
    case 18 => Some(Bcc(CC, 6))
    case 20 => Some(Move(W, PreDec(A1), PreDec(A0)))
    case 22 => Some(Subq(L, 2, D2))
    case 24 => Some(Bcc(CS, 6))
    case 26 => Some(Move(L, PreDec(A1), PreDec(A0)))
    case 28 => Some(Subq(L, 4, D2))
    case 30 => Some(Bcc(CC, -6))
    case 32 => Some(Addq(L, 3, D2))
    case 34 => Some(Bcc(CC, 6))
    case 36 => Some(Move(B, PreDec(A1), PreDec(A0)))
    case 38 => Some(Dbf(D2, -4))
    case 42 => Some(Move(L, A(A0), D(D0)))
    case _ => None
  }

  function Memset020Code(pc: int): Option<Instr> {
    if pc < 32 then Memset020Start(pc) else Memset020Rest(pc)
  }

  function Memset020Start(pc: int): Option<Instr> {
    match pc
    case 0 => Some(Move(L, A(A0), A(A1)))
    case 2 => Some(Subq(L, 8, D2))
    case 4 => Some(Bcc(CS, 46))
    case 6 => Some(Move(L, D(D0), D(D1)))
    case 8 => Some(Lsl8(L, D0))
    case 10 => Some(Move(B, D(D1), D(D0)))
    case 12 => Some(Addq(L, 4, D2))
    case 14 => Some(Move(L, D(D0), D(D1)))
    case 16 => Some(Swap(D0))
    case 18 => Some(Move(W, D(D1), D(D0)))
    case 20 => Some(Move(L, A(A1), D(D1)))
    case 22 => Some(Lsr1(D1))
    case 24 => Some(Bcc(CC, 6))
    case 26 => Some(Move(B, D(D0), PostInc(A0)))
    case 28 => Some(Addq(L, 1, D1))
    case 30 => Some(Subq(L, 1, D2))
    case _ => None
  }

  function Memset020Rest(pc: int): Option<Instr> {
    match pc
    case 32 => Some(Lsr1(D1))
    case 34 => Some(Bcc(CC, 4))
    case 36 => Some(Move(W, D(D0), PostInc(A0)))
    case 38 => Some(Subq(L, 2, D2))
    case 40 => Some(Move(L, D(D0), PostInc(A0)))
    case 42 => Some(Subq(L, 4, D2))
    case 44 => Some(Bcc(CC, -6))
    case 46 => Some(Addq(L, 3, D2))
    case 48 => Some(Bcc(CS, 6))
    case 50 => Some(Bcc(RA, 10))
    case 52 => Some(Addq(L, 7, D2))
    case 54 => Some(Bcc(CC, 6))
    case 56 => Some(Move(B, D(D0), PostInc(A0)))
    case 58 => Some(Dbf(D2, -4))
    case 62 => Some(Move(L, A(A1), D(D0)))
    case _ => None
  }

  function StrlenCode(pc: int): Option<Instr> {
    match pc
    case 0 => Some(Move(L, A(A0), D(D0)))
    case 2 => Some(Tst(B, PostInc(A0)))
    case 4 => Some(Bcc(NE, -4))
    case 6 => Some(Sub(L, A(A0), D0))
    case 8 => Some(Not(D0))
    case _ => None
  }

  function StrcpyCode(pc: int): Option<Instr> {
    match pc
    case 0 => Some(Move(L, A(A0), D(D0)))
    case 2 => Some(Move(B, PostInc(A1), PostInc(A0)))
    case 4 => Some(Bcc(NE, -4))
    case _ => None
  }

  function StrncpyCode(pc: int): Option<Instr> {
    match pc
    case 0 => Some(Move(L, A(A0), D(D0)))
    case 2 => Some(Bcc(RA, 6))
    case 4 => Some(Move(B, Ind(A1), PostInc(A0)))
    case 6 => Some(Bcc(EQ, 2))
    case 8 => Some(AddqA(1, A1))
    case 10 => Some(Subq(L, 1, D1))
    case 12 => Some(Bcc(PL, -10))
    case _ => None
  }

  function StrcmpCode(pc: int): Option<Instr> {
    match pc
    case 0 => Some(Moveq(0, D0))
    case 2 => Some(Moveq(0, D1))
    case 4 => Some(Move(B, PostInc(A0), D(D0)))
    case 6 => Some(Move(B, PostInc(A1), D(D1)))
    case 8 => Some(Bcc(EQ, 6))
    case 10 => Some(Sub(L, D(D1), D0))
    case 12 => Some(Bcc(EQ, -10))
    case 14 => Some(Moveq(0, D1))
    case 16 => Some(Sub(L, D(D1), D0))
    case _ => None
  }

  function StrncmpCode(pc: int): Option<Instr> {
    match pc
    case 0 => Some(Moveq(0, D0))
    case 2 => Some(Moveq(0, D1))
    case 4 => Some(Subq(L, 1, D2))
    case 6 => Some(Bcc(MI, 14))
    case 8 => Some(Move(B, PostInc(A0), D(D0)))
    case 10 => Some(Move(B, PostInc(A1), D(D1)))
    case 12 => Some(Bcc(EQ, 6))
    case 14 => Some(Sub(L, D(D1), D0))
    case 16 => Some(Bcc(EQ, -14))
    case 18 => Some(Moveq(0, D1))
    case 20 => Some(Sub(L, D(D1), D0))
    case _ => None
  }

  function StrcatCode(pc: int): Option<Instr> {
    match pc
    case 0 => Some(Move(L, A(A0), D(D0)))
    case 2 => Some(Tst(B, PostInc(A0)))
    case 4 => Some(Bcc(NE, -4))
    case 6 => Some(SubqA(1, A0))
    case 8 => Some(Move(B, PostInc(A1), PostInc(A0)))
    case 10 => Some(Bcc(NE, -4))
    case _ => None
  }

  function StrrchrCode(pc: int): Option<Instr> {
    match pc
    case 0 => Some(Moveq(0, D0))
    case 2 => Some(Cmp(B, Ind(A0), D1))
    case 4 => Some(Bcc(NE, 2))
    case 6 => Some(Move(L, A(A0), D(D0)))
    case 8 => Some(Tst(B, PostInc(A0)))
    case 10 => Some(Bcc(NE, -10))
    case _ => None
  }
}
