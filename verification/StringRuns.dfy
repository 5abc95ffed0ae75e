/** The string routines: every run finishes, reads nothing behind the terminators, and computes
    the C function. */
module StringRuns {
  import opened Options
  import opened Words
  import opened M68k
  import opened StringCode
  import opened M68kRuns
  import opened Blocks
  import opened Transfers
  import opened CStrings

  /** The machine is about to execute the first instruction of a routine. */
  predicate Ready(s: Cpu) {
    s.pc == 0 && !s.fault && |s.mem| <= TWO32
  }

  /** The guard allows reading n bytes at a. */
  predicate AllowsRead(g: Guard, a: int, n: int) {
    Inside(g.read1, a, n) || Inside(g.read2, a, n)
  }

  /** The scan takes a0 from the start of a string to behind its NUL, however long it is. */
  lemma FindEnd(p: Program, s0: Cpu, c: Cpu, n: int) returns (t: Cpu)
    requires Reaches(p, s0, c) && !c.fault && |c.mem| <= TWO32
    requires IsString(c.mem, c.a0, n) && AllowsRead(p.guard, c.a0, n + 1)
    requires Code(p.routine, c.pc) == Some(Tst(B, PostInc(A0)))
    requires Code(p.routine, c.pc + 2) == Some(Bcc(NE, -4))
    ensures Reaches(p, s0, t)
    ensures t == c.(pc := c.pc + 4, a0 := Wrap(c.a0 + n + 1), cf := t.cf, nf := t.nf, zf := t.zf)
  {
    hide Reaches, Code, Wrap;
    var i := 0;
    t := c;
    while t.pc == c.pc
      invariant Reaches(p, s0, t) && 0 <= i <= n + 1
      invariant t == c.(pc := if i == n + 1 then c.pc + 4 else c.pc, a0 := Wrap(c.a0 + i),
                        cf := t.cf, nf := t.nf, zf := t.zf)
      decreases n + 1 - i
    {
      t := StepTstByte(p, s0, t, A0);
      t := StepBcc(p, s0, t, NE, -4);
      i := i + 1;
    }
  }

  lemma StrlenRuns(p: Program, s: Cpu, n: int) returns (t: Cpu)
    requires p.routine == Strlen && Ready(s)
    requires IsString(s.mem, s.a0, n) && AllowsRead(p.guard, s.a0, n + 1)
    ensures Finishes(p, s, t) && t.mem == s.mem && t.d0 == n
  {
    hide Reaches, Wrap, Merge, Low, IsString, Sum, Difference;
    ReachesItself(p, s);
    t := StepMoveToD(p, s, s, L, A(A0), D0);
    t := FindEnd(p, s, t, n);
    InMemory(s.mem, s.a0, n);
    t := StepSub(p, s, t, A(A0), D0);
    t := StepNot(p, s, t, D0);
  }

  lemma InMemory(m: seq<byte>, a: int, n: int)
    requires IsString(m, a, n)
    ensures 0 <= a && 0 <= n && a + n < |m|
  {
  }

  /** The copying loop does job j, a string with its NUL: it ends with the NUL, and not before. */
  lemma CopyString(p: Program, s0: Cpu, c: Cpu, j: Job, n: int) returns (t: Cpu)
    requires Reaches(p, s0, c) && At(j, c, 0) && j.way == Up && j.n == n + 1
    requires IsString(j.m, j.s, n) && Allows(p.guard, j)
    requires Code(p.routine, c.pc) == Some(Transfer(Up, B))
    requires Code(p.routine, c.pc + 2) == Some(Bcc(NE, -4))
    ensures Reaches(p, s0, t) && At(j, t, j.n) && t.pc == c.pc + 4 && t.d0 == c.d0
  {
    hide Exec, Reaches, Code, Wrap, Progress, Allows, Transfer, Fits, At;
    var i := 0;
    t := c;
    while t.pc == c.pc
      invariant Reaches(p, s0, t) && At(j, t, i) && 0 <= i <= n + 1 && t.d0 == c.d0
      invariant t.pc == if i == n + 1 then c.pc + 4 else c.pc
      decreases n + 1 - i
    {
      BytesFit(p.guard, j, i);
      t := TransferUp(p, s0, t, j, i, B);
      var u := t;
      i := i + 1;
      t := StepBcc(p, s0, t, NE, -4);
      StillAt(j, u, t, i);
    }
  }

  /** strcpy copies the string and its NUL. */
  lemma StrcpyRuns(p: Program, s: Cpu, j: Job, n: int) returns (t: Cpu)
    requires p.routine == Strcpy && Ready(s) && At(j, s, 0) && j.way == Up && j.n == n + 1
    requires IsString(j.m, j.s, n) && Allows(p.guard, j)
    ensures Finishes(p, s, t) && t.mem == Copied(j.m, j.d, j.s, n + 1) && t.d0 == s.a0
  {
    hide Reaches, Wrap, Merge, Low, Copied, Progress, IsString, Allows, Sum, Difference;
    ReachesItself(p, s);
    t := StepMoveToD(p, s, s, L, A(A0), D0);
    t := CopyString(p, s, t, j, n);
    ProgressEnds(j);
  }

  /** strcat copies the source over the NUL of the destination string of k characters. */
  lemma StrcatRuns(p: Program, s: Cpu, k: int, j: Job, n: int) returns (t: Cpu)
    requires p.routine == Strcat && Ready(s) && IsString(s.mem, s.a0, k) && AllowsRead(p.guard, s.a0, k + 1)
    requires Sound(j) && j.way == Up && j.n == n + 1 && j.m == s.mem && j.d == s.a0 + k && j.s == s.a1
    requires IsString(j.m, j.s, n) && Allows(p.guard, j)
    ensures Finishes(p, s, t) && t.mem == Copied(s.mem, s.a0 + k, s.a1, n + 1) && t.d0 == s.a0
  {
    hide Reaches, Wrap, Merge, Low, Copied, Progress, Allows, Sum, Difference;
    ReachesItself(p, s);
    t := StepMoveToD(p, s, s, L, A(A0), D0);
    t := FindEnd(p, s, t, k);
    t := StepSubqA(p, s, t, 1, A0);
    ProgressStarts(j);
    t := CopyString(p, s, t, j, n);
    ProgressEnds(j);
  }

  // ---------- comparison ----------

  /** The loop body of strcmp and strncmp: load both characters, leave when the second is NUL or
      they differ, and subtract. `again` is the displacement of the branch back. */
  predicate IsCompareBody(code: Routine, at: int, again: int) {
    && Code(code, at) == Some(Move(B, PostInc(A0), D(D0)))
    && Code(code, at + 2) == Some(Move(B, PostInc(A1), D(D1)))
    && Code(code, at + 4) == Some(Bcc(EQ, 6))
    && Code(code, at + 6) == Some(Sub(L, D(D1), D0))
    && Code(code, at + 8) == Some(Bcc(EQ, again))
    && Code(code, at + 10) == Some(Moveq(0, D1))
    && Code(code, at + 12) == Some(Sub(L, D(D1), D0))
  }

  /** Going on happens exactly with equal characters that are not NUL; otherwise d0 is their
      difference, also when the second is NUL and the subtraction runs with its zero. */
  lemma CompareBody(p: Program, s0: Cpu, c: Cpu, again: int, x: byte, y: byte) returns (t: Cpu)
    requires Reaches(p, s0, c) && !c.fault && c.d0 == 0 && c.d1 < 0x100
    requires IsCompareBody(p.routine, c.pc, again)
    requires MayLoad(p.guard, c.mem, c.a0, B) && MayLoad(p.guard, c.mem, c.a1, B)
    requires c.mem[c.a0] == x && c.mem[c.a1] == y
    ensures Reaches(p, s0, t) && !t.fault && t.mem == c.mem && t.d2 == c.d2
    ensures if x == y != 0
      then t.pc == c.pc + 10 + again && t.d0 == 0 && t.d1 < 0x100 && t.a0 == Wrap(c.a0 + 1) && t.a1 == Wrap(c.a1 + 1)
      else t.pc == c.pc + 14 && t.d0 == Wrap(x - y)
  {
    hide Reaches, Code, Wrap, Merge, Low, MayLoad, Sum, Difference;
    t := StepLoadByte(p, s0, c, A0, D0);
    t := StepLoadByte(p, s0, t, A1, D1);
    t := StepBcc(p, s0, t, EQ, 6);
    if y != 0 {
      t := StepSub(p, s0, t, D(D1), D0);
      t := StepBcc(p, s0, t, EQ, again);
      if x != y {
        t := StepMoveq(p, s0, t, 0, D1);
      }
    }
    if x != y || y == 0 {
      t := StepSub(p, s0, t, D(D1), D0);
    }
  }

  /** The first i characters of both texts are equal; u and v come next, 0 standing for an end. */
  lemma CompareAt(m: seq<byte>, a: int, x: int, b: int, y: int, i: int, u: byte, v: byte)
    requires 0 <= a && a + x <= |m| && 0 <= b && b + y <= |m| && 0 <= i <= x && i <= y
    requires m[a..a + i] == m[b..b + i]
    requires if i < x then u == m[a + i] else u == 0
    requires if i < y then v == m[b + i] else v == 0
    ensures u != v || (i == x && i == y) ==> Compare(m[a..a + x], m[b..b + y]) == u as int - v as int
    ensures u == v && i < x && i < y ==> m[a..a + i + 1] == m[b..b + i + 1]
  {
    var s, t := m[a..a + x], m[b..b + y];
    SliceParts(m, a, x, i);
    SliceParts(m, b, y, i);
    CompareSkip(s, t, i);
    assert i < x ==> s[i..][0] == m[a + i];
    assert i < y ==> t[i..][0] == m[b + i];
  }

  lemma SliceParts(m: seq<byte>, a: int, x: int, i: int)
    requires 0 <= a && a + x <= |m| && 0 <= i <= x
    ensures m[a..a + x][..i] == m[a..a + i] && m[a..a + x][i..] == m[a + i..a + x]
    ensures i < x ==> m[a..a + i + 1] == m[a..a + i] + [m[a + i]]
  {
  }

  lemma StrcmpBody()
    ensures IsCompareBody(Strcmp, 4, -10)
  {
  }

  lemma StrncmpBody()
    ensures IsCompareBody(Strncmp, 8, -14)
  {
  }

  /** The place i of a cut text, as the comparison loop reads it. */
  lemma CutByte(g: Guard, m: seq<byte>, a: int, l: int, n: int, i: int)
    requires IsCut(m, a, l, n) && 0 <= i <= l && i < n
    requires AllowsRead(g, a, if l < n then l + 1 else n)
    ensures MayLoad(g, m, a + i, B) && a + i < |m| && (i < l <==> m[a + i] != 0)
  {
  }

  /** Two arrays to compare, cut off after n bytes, where they are texts of x and y characters. */
  datatype Pair = Pair(m: seq<byte>, a: u32, x: int, b: u32, y: int, n: int)

  predicate Comparable(g: Guard, q: Pair) {
    && IsCut(q.m, q.a, q.x, q.n) && AllowsRead(g, q.a, if q.x < q.n then q.x + 1 else q.n)
    && IsCut(q.m, q.b, q.y, q.n) && AllowsRead(g, q.b, if q.y < q.n then q.y + 1 else q.n)
    && |q.m| <= TWO32
  }

  function Answer(g: Guard, q: Pair): int
    requires Comparable(g, q)
  {
    Compare(q.m[q.a..q.a + q.x], q.m[q.b..q.b + q.y])
  }

  predicate SamePrefix(g: Guard, q: Pair, i: int)
    requires Comparable(g, q)
  {
    0 <= i <= q.x && i <= q.y && q.m[q.a..q.a + i] == q.m[q.b..q.b + i]
  }

  /** In the loop: the first i characters are equal. */
  predicate EqualSoFar(g: Guard, q: Pair, c: Cpu, i: int)
    requires Comparable(g, q)
  {
    && SamePrefix(g, q, i)
    && c.mem == q.m && !c.fault && c.d0 == 0 && c.d1 < 0x100
    && c.a0 == Wrap(q.a + i) && c.a1 == Wrap(q.b + i)
  }

  /** Behind the loop: the answer is in d0. */
  predicate Decided(g: Guard, q: Pair, c: Cpu)
    requires Comparable(g, q)
  {
    c.mem == q.m && !c.fault && c.d0 == Wrap(Answer(g, q))
  }

  /** Place i of both arrays may be read, and holds a NUL exactly at the end of the text. */
  lemma PlaceBytes(g: Guard, q: Pair, i: int)
    requires Comparable(g, q) && 0 <= i <= q.x && i <= q.y && i < q.n
    ensures MayLoad(g, q.m, q.a + i, B) && q.a + q.x <= |q.m| && q.a + i < |q.m| && (i < q.x <==> q.m[q.a + i] != 0)
    ensures MayLoad(g, q.m, q.b + i, B) && q.b + q.y <= |q.m| && q.b + i < |q.m| && (i < q.y <==> q.m[q.b + i] != 0)
  {
    hide MayLoad, AllowsRead, Compare, IsCut;
    CutInMemory(q.m, q.a, q.x, q.n);
    CutInMemory(q.m, q.b, q.y, q.n);
    CutByte(g, q.m, q.a, q.x, q.n, i);
    CutByte(g, q.m, q.b, q.y, q.n, i);
  }

  /** What place i of both arrays decides. */
  lemma Place(g: Guard, q: Pair, i: int)
    requires Comparable(g, q) && SamePrefix(g, q, i) && i < q.n && q.a + i < |q.m| && q.b + i < |q.m|
    ensures if q.m[q.a + i] == q.m[q.b + i] != 0 then SamePrefix(g, q, i + 1)
      else Answer(g, q) == q.m[q.a + i] as int - q.m[q.b + i] as int
  {
    hide Comparable, MayLoad, Compare;
    PlaceBytes(g, q, i);
    CompareAt(q.m, q.a, q.x, q.b, q.y, i, q.m[q.a + i], q.m[q.b + i]);
  }

  lemma SamePrefixPlace(g: Guard, q: Pair, i: int)
    requires Comparable(g, q) && SamePrefix(g, q, i)
    ensures 0 <= i <= q.x && i <= q.y
  {
  }

  /** One round: place i decides, or it is equal and the loop goes on. */
  lemma CompareRound(p: Program, s0: Cpu, c: Cpu, again: int, q: Pair, i: int) returns (t: Cpu)
    requires Reaches(p, s0, c) && IsCompareBody(p.routine, c.pc, again)
    requires Comparable(p.guard, q) && EqualSoFar(p.guard, q, c, i) && i < q.n
    ensures Reaches(p, s0, t) && t.d2 == c.d2
    ensures (t.pc == c.pc + 10 + again && EqualSoFar(p.guard, q, t, i + 1))
         || (t.pc == c.pc + 14 && Decided(p.guard, q, t))
  {
    hide Reaches, MayLoad, IsCompareBody, Wrap, SamePrefix, Answer;
    SamePrefixPlace(p.guard, q, i);
    PlaceBytes(p.guard, q, i);
    Place(p.guard, q, i);
    t := CompareBody(p, s0, c, again, q.m[q.a + i], q.m[q.b + i]);
  }

  lemma StringIsCut(m: seq<byte>, a: int, l: int, n: int)
    requires IsString(m, a, l) && l < n
    ensures IsCut(m, a, l, n)
  {
  }

  /** strcmp of a string of x and a string of y characters. */
  lemma StrcmpRuns(p: Program, s: Cpu, x: int, y: int) returns (t: Cpu)
    requires p.routine == Strcmp && Ready(s)
    requires IsString(s.mem, s.a0, x) && AllowsRead(p.guard, s.a0, x + 1)
    requires IsString(s.mem, s.a1, y) && AllowsRead(p.guard, s.a1, y + 1)
    ensures Finishes(p, s, t) && t.mem == s.mem
    ensures Signed(t.d0) == Compare(s.mem[s.a0..s.a0 + x], s.mem[s.a1..s.a1 + y])
  {
    hide Reaches, Wrap, Merge, Low, AllowsRead, IsCompareBody, Compare, Signed, IsString, IsCut, Sum, Difference;
    var n := x + y + 2;
    InMemory(s.mem, s.a0, x);
    InMemory(s.mem, s.a1, y);
    StringIsCut(s.mem, s.a0, x, n);
    StringIsCut(s.mem, s.a1, y, n);
    var q := Pair(s.mem, s.a0, x, s.a1, y, n);
    ReachesItself(p, s);
    StrcmpBody();
    t := StepMoveq(p, s, s, 0, D0);
    t := StepMoveq(p, s, t, 0, D1);
    var i := 0;
    while t.pc == 4
      invariant Reaches(p, s, t)
      invariant (t.pc == 4 && EqualSoFar(p.guard, q, t, i)) || (t.pc == 18 && Decided(p.guard, q, t))
      decreases x - i, t.pc != 18
    {
      t := CompareRound(p, s, t, -10, q, i);
      if t.pc == 4 {
        i := i + 1;
      }
    }
    SignedOf(t.d0, Answer(p.guard, q));
  }

  lemma SignedOf(v: u32, r: int)
    requires v == Wrap(r) && -0x100 < r < 0x100
    ensures Signed(v) == r
  {
  }

  /** The count as the sign test after `subq.l #1` takes it: above 2^31 nothing is processed. */
  function Count(n: u32): u32 {
    if n <= TWO31 then n else 0
  }

  /** The count lets the loop go on to the next characters, or ends it with 0 when it is used up. */
  lemma CountDown(p: Program, s0: Cpu, c: Cpu, d2: u32, q: Pair, i: int) returns (t: Cpu)
    requires Reaches(p, s0, c) && p.routine == Strncmp && c.pc == 4
    requires Comparable(p.guard, q) && q.n == Count(d2)
    requires EqualSoFar(p.guard, q, c, i) && c.d2 == d2 - i
    ensures Reaches(p, s0, t)
    ensures if i < q.n then t.pc == 8 && EqualSoFar(p.guard, q, t, i) && t.d2 == d2 - i - 1
      else t.pc == 22 && Decided(p.guard, q, t)
  {
    hide Reaches, Wrap, Merge, Low, AllowsRead, Compare, IsCut, Sum, Difference;
    CutInMemory(q.m, q.a, q.x, q.n);
    CutInMemory(q.m, q.b, q.y, q.n);
    t := StepSubq(p, s0, c, 1, D2);
    t := StepBcc(p, s0, t, MI, 14);
    if i == q.n {
      CompareAt(q.m, q.a, q.x, q.b, q.y, i, 0, 0);
    }
  }

  /** strncmp of two arrays that, cut off after the count, are texts of x and y characters. */
  lemma StrncmpRuns(p: Program, s: Cpu, x: int, y: int) returns (t: Cpu)
    requires p.routine == Strncmp && Ready(s)
    requires Comparable(p.guard, Pair(s.mem, s.a0, x, s.a1, y, Count(s.d2)))
    ensures Finishes(p, s, t) && t.mem == s.mem
    ensures Signed(t.d0) == Compare(s.mem[s.a0..s.a0 + x], s.mem[s.a1..s.a1 + y])
  {
    hide Reaches, Wrap, Merge, Low, AllowsRead, IsCompareBody, Compare, Signed, IsCut, Sum, Difference;
    var n := Count(s.d2);
    var q := Pair(s.mem, s.a0, x, s.a1, y, n);
    CutInMemory(q.m, q.a, q.x, q.n);
    CutInMemory(q.m, q.b, q.y, q.n);
    ReachesItself(p, s);
    StrncmpBody();
    t := StepMoveq(p, s, s, 0, D0);
    t := StepMoveq(p, s, t, 0, D1);
    var i := 0;
    while t.pc == 4
      invariant Reaches(p, s, t)
      invariant (t.pc == 4 && EqualSoFar(p.guard, q, t, i) && t.d2 == s.d2 - i)
             || (t.pc == 22 && Decided(p.guard, q, t))
      decreases x - i, t.pc != 22
    {
      t := CountDown(p, s, t, s.d2, q, i);
      if i < n {
        t := CompareRound(p, s, t, -14, q, i);
        if t.pc == 4 {
          i := i + 1;
        }
      }
    }
    SignedOf(t.d0, Answer(p.guard, q));
  }

  lemma CutInMemory(m: seq<byte>, a: int, l: int, n: int)
    requires IsCut(m, a, l, n)
    ensures 0 <= a && 0 <= l <= n && a + l <= |m| && (l < n ==> a + l < |m|)
  {
  }

  // ---------- strncpy ----------

  /** What strncpy is called for: n bytes to d from the array at s, a text of l characters when cut
      off after n bytes. */
  datatype Pad = Pad(m: seq<byte>, d: u32, s: u32, l: int, n: int)

  /** How many source bytes are looked at. */
  function Seen(q: Pad): int {
    if q.l < q.n then q.l + 1 else q.n
  }

  predicate Paddable(g: Guard, q: Pad) {
    && IsCut(q.m, q.s, q.l, q.n) && AllowsRead(g, q.s, Seen(q))
    && q.d + q.n <= |q.m| <= TWO32 && Inside(g.write, q.d, q.n)
    && (q.d + q.n <= q.s || q.s + Seen(q) <= q.d)
  }

  function SourceIndex(q: Pad, i: int): int {
    if i < q.l then i else q.l
  }

  function PadMemory(g: Guard, q: Pad, i: int): (r: seq<byte>)
    requires Paddable(g, q) && 0 <= i <= q.n
    ensures |r| == |q.m|
  {
    Splice(q.m, q.d, Padded(q.m, q.s, q.l, i))
  }

  /** i bytes are written; a1 has stopped on the NUL if it has been reached. */
  predicate PaddedSoFar(g: Guard, q: Pad, c: Cpu, i: int)
    requires Paddable(g, q)
  {
    && 0 <= i <= q.n && !c.fault && c.mem == PadMemory(g, q, i)
    && c.a0 == Wrap(q.d + i) && c.a1 == Wrap(q.s + SourceIndex(q, i))
  }

  /** The byte read is the original one: the next character, or the NUL again. */
  lemma PadRead(g: Guard, q: Pad, i: int)
    requires Paddable(g, q) && 0 <= i < q.n
    ensures var o := q.s + SourceIndex(q, i);
      && MayLoad(g, q.m, o, B) && o < |q.m| && PadMemory(g, q, i)[o] == q.m[o]
      && (q.m[o] == 0 <==> q.l <= i)
  {
    hide Splice, Padded, MayLoad;
    var x := SourceIndex(q, i);
    CutByte(g, q.m, q.s, q.l, q.n, x);
    SpliceElsewhere(q.m, q.d, Padded(q.m, q.s, q.l, i), q.s + x);
  }

  lemma SpliceElsewhere(m: seq<byte>, d: int, bs: seq<byte>, o: int)
    requires 0 <= d && d + |bs| <= |m| && 0 <= o < |m| && !(d <= o < d + |bs|)
    ensures Splice(m, d, bs)[o] == m[o]
  {
  }

  /** Writing it is one more byte of the padded copy. */
  lemma PadWrite(g: Guard, q: Pad, i: int)
    requires Paddable(g, q) && 0 <= i < q.n
    requires var o := q.s + SourceIndex(q, i); o < |q.m| && (q.m[o] == 0 <==> q.l <= i)
    ensures MayStore(g, q.m, q.d + i, B)
    ensures Store(PadMemory(g, q, i), q.d + i, B, q.m[q.s + SourceIndex(q, i)]) == PadMemory(g, q, i + 1)
  {
    hide Splice, Padded;
    var x := SourceIndex(q, i);
    PaddedGrows(q.m, q.s, q.l, i);
    SpliceGrows(q.m, q.d, Padded(q.m, q.s, q.l, i), q.m[q.s + x]);
  }

  lemma PaddedGrows(m: seq<byte>, s: int, l: int, i: int)
    requires 0 <= s && 0 <= l && 0 <= i && s + (if i < l then i + 1 else l) <= |m|
    ensures Padded(m, s, l, i + 1) == Padded(m, s, l, i) + [if i < l then m[s + i] else 0]
  {
  }

  lemma SpliceGrows(m: seq<byte>, d: int, bs: seq<byte>, v: byte)
    requires 0 <= d && d + |bs| < |m|
    ensures Splice(m, d, bs)[d + |bs| := v] == Splice(m, d, bs + [v])
  {
  }

  /** One more byte is written, and a1 moves on unless it stands on the NUL. */
  lemma PadRound(p: Program, s0: Cpu, c: Cpu, q: Pad, i: int) returns (t: Cpu)
    requires p.routine == Strncpy && Reaches(p, s0, c) && c.pc == 4
    requires Paddable(p.guard, q) && i < q.n && PaddedSoFar(p.guard, q, c, i)
    ensures Reaches(p, s0, t) && t.pc == 10 && t.d0 == c.d0 && t.d1 == c.d1
    ensures PaddedSoFar(p.guard, q, t, i + 1)
  {
    hide Reaches, Wrap, Store, MayLoad, MayStore, Paddable, PadMemory;
    PadBounds(p.guard, q, i);
    PadRead(p.guard, q, i);
    PadWrite(p.guard, q, i);
    var v := q.m[q.s + SourceIndex(q, i)];
    SameSizeGuard(p.guard, q.m, c.mem, c.a1, c.a0);
    t := StepMoveStay(p, s0, c);
    t := StepBcc(p, s0, t, EQ, 2);
    if v != 0 {
      t := StepAddqA(p, s0, t, 1, A1);
    }
  }

  lemma PadBounds(g: Guard, q: Pad, i: int)
    requires Paddable(g, q) && 0 <= i < q.n
    ensures q.d + i < TWO32 && q.s + SourceIndex(q, i) < TWO32 && 0 <= q.l <= q.n
  {
  }

  lemma SameSizeGuard(g: Guard, m: seq<byte>, m': seq<byte>, a: int, b: int)
    requires |m| == |m'| && MayLoad(g, m, a, B) && MayStore(g, m, b, B)
    ensures MayLoad(g, m', a, B) && MayStore(g, m', b, B)
  {
  }

  /** strncpy, for any count. */
  lemma StrncpyRuns(p: Program, s: Cpu, l: int) returns (t: Cpu)
    requires p.routine == Strncpy && Ready(s)
    requires Paddable(p.guard, Pad(s.mem, s.a0, s.a1, l, Count(s.d1)))
    ensures Finishes(p, s, t) && t.d0 == s.a0
    ensures t.mem == PaddedCopy(s.mem, s.a0, s.a1, l, Count(s.d1))
  {
    hide Reaches, Wrap, Merge, Low, PadMemory, Paddable, Sum, Difference;
    var q := Pad(s.mem, s.a0, s.a1, l, Count(s.d1));
    PadStarts(p.guard, q);
    ReachesItself(p, s);
    t := StepMoveToD(p, s, s, L, A(A0), D0);
    t := StepBcc(p, s, t, RA, 6);
    var i := 0;
    while t.pc == 10
      invariant Reaches(p, s, t) && t.d0 == s.a0 && PaddedSoFar(p.guard, q, t, i)
      invariant (t.pc == 10 && t.d1 == s.d1 - i) || (t.pc == 14 && i == q.n)
      decreases q.n - i, t.pc != 14
    {
      t := StepSubq(p, s, t, 1, D1);
      t := StepBcc(p, s, t, PL, -10);
      if i < q.n {
        t := PadRound(p, s, t, q, i);
        i := i + 1;
      }
    }
    PadEnds(p.guard, q);
  }

  lemma PadStarts(g: Guard, q: Pad)
    requires Paddable(g, q)
    ensures PadMemory(g, q, 0) == q.m && 0 <= q.l <= q.n && SourceIndex(q, 0) == 0
  {
  }

  lemma PadEnds(g: Guard, q: Pad)
    requires Paddable(g, q)
    ensures IsCut(q.m, q.s, q.l, q.n) && q.d + q.n <= |q.m|
    ensures PadMemory(g, q, q.n) == PaddedCopy(q.m, q.d, q.s, q.l, q.n)
  {
  }

  // ---------- strrchr ----------

  /** The pointer strrchr returns for a match. */
  function Pointer(a: u32, r: Option<int>): int {
    match r
    case None => 0
    case Some(i) => a + i
  }

  /** The pointer is null exactly when no byte matches, and otherwise points to the last that does. */
  lemma PointerMeans(m: seq<byte>, a: u32, n: int, c: byte)
    requires 0 <= n && a + n < |m|
    ensures var r := Pointer(a, LastMatch(m, a, n + 1, c));
      && ((forall i :: a <= i <= a + n ==> m[i] != c) ==> r == 0)
      && ((exists i :: a <= i <= a + n && m[i] == c) ==>
            a <= r <= a + n && m[r] == c && forall i :: r < i <= a + n ==> m[i] != c)
  {
  }

  lemma StrrchrSearches(p: Program, s: Cpu, n: int) returns (t: Cpu)
    requires p.routine == Strrchr && Ready(s)
    requires IsString(s.mem, s.a0, n) && AllowsRead(p.guard, s.a0, n + 1)
    ensures Finishes(p, s, t) && t.mem == s.mem
    ensures t.d0 == Pointer(s.a0, LastMatch(s.mem, s.a0, n + 1, s.d1 % 0x100))
  {
    hide Reaches, Wrap, Merge, Sum, Difference;
    var m, a, c := s.mem, s.a0, s.d1 % 0x100;
    ReachesItself(p, s);
    t := StepMoveq(p, s, s, 0, D0);
    var i := 0;
    while t.pc == 2
      invariant Reaches(p, s, t) && 0 <= i <= n + 1
      invariant t.mem == m && !t.fault && t.d1 == s.d1 && t.a0 == Wrap(a + i)
      invariant t.d0 == Pointer(a, LastMatch(m, a, i, c))
      invariant t.pc == if i == n + 1 then 12 else 2
      decreases n + 1 - i
    {
      t := SearchRound(p, s, t, m[a + i], c);
      i := i + 1;
    }
  }

  /** strrchr: the last match among the characters and the NUL, or the null pointer. */
  lemma StrrchrRuns(p: Program, s: Cpu, n: int) returns (t: Cpu)
    requires p.routine == Strrchr && Ready(s)
    requires IsString(s.mem, s.a0, n) && AllowsRead(p.guard, s.a0, n + 1)
    ensures Finishes(p, s, t) && t.mem == s.mem
    ensures t.d0 == Pointer(s.a0, LastMatch(s.mem, s.a0, n + 1, s.d1 % 0x100))
    ensures (forall i :: s.a0 <= i <= s.a0 + n ==> s.mem[i] != s.d1 % 0x100) ==> t.d0 == 0
    ensures (exists i :: s.a0 <= i <= s.a0 + n && s.mem[i] == s.d1 % 0x100) ==>
              && s.a0 <= t.d0 <= s.a0 + n && s.mem[t.d0] == s.d1 % 0x100
              && forall i :: t.d0 < i <= s.a0 + n ==> s.mem[i] != s.d1 % 0x100
  {
    hide Finishes, IsString, AllowsRead, LastMatch, Pointer;
    InMemory(s.mem, s.a0, n);
    t := StrrchrSearches(p, s, n);
    PointerMeans(s.mem, s.a0, n, s.d1 % 0x100);
  }

  /** One byte is searched: d0 takes its address if it matches, and the loop ends behind the NUL. */
  lemma SearchRound(p: Program, s0: Cpu, c: Cpu, x: byte, ch: byte) returns (t: Cpu)
    requires p.routine == Strrchr && Reaches(p, s0, c) && c.pc == 2 && !c.fault
    requires MayLoad(p.guard, c.mem, c.a0, B) && c.mem[c.a0] == x && c.d1 % 0x100 == ch
    ensures Reaches(p, s0, t) && t.mem == c.mem && !t.fault && t.d1 == c.d1 && t.a0 == Wrap(c.a0 + 1)
    ensures t.d0 == (if x == ch then c.a0 else c.d0) && t.pc == if x == 0 then 12 else 2
  {
    hide Reaches, Wrap, Merge, MayLoad, Sum, Difference;
    t := StepCmpByte(p, s0, c, A0, D1);
    t := StepBcc(p, s0, t, NE, 2);
    if x == ch {
      t := StepMoveToD(p, s0, t, L, A(A0), D0);
    }
    t := StepTstByte(p, s0, t, A0);
    t := StepBcc(p, s0, t, NE, -10);
  }
}
