/** What the string routines mean to one another, and which counts strncpy and strncmp serve. */
module StringAlgebra {
  import opened Options
  import opened Words
  import opened M68k
  import opened StringCode
  import opened M68kRuns
  import opened Blocks
  import opened Transfers
  import opened CStrings
  import opened StringRuns

  /** After strcpy the destination is the same string. */
  lemma CopyIsString(m: seq<byte>, d: int, s: int, n: int)
    requires IsString(m, s, n) && 0 <= d && d + n + 1 <= |m|
    ensures var m' := Copied(m, d, s, n + 1);
      IsString(m', d, n) && m'[d..d + n] == m[s..s + n] && m'[..d] == m[..d]
  {
    var m' := Copied(m, d, s, n + 1);
    assert forall i :: d <= i < d + n + 1 ==> m'[i] == m[s + (i - d)];
  }

  /** A string that does not overlap what is written is kept. */
  lemma StringKept(m: seq<byte>, d: int, s: int, n: int, a: int, k: int)
    requires 0 <= n && 0 <= d && d + n <= |m| && 0 <= s && s + n <= |m|
    requires IsString(m, a, k) && (a + k < d || d + n <= a)
    ensures IsString(Copied(m, d, s, n), a, k) && Copied(m, d, s, n)[a..a + k] == m[a..a + k]
  {
    var m' := Copied(m, d, s, n);
    assert forall i :: a <= i <= a + k ==> m'[i] == m[i];
  }

  /** strcmp(strcpy(d, s), s) is 0 for blocks that do not overlap: the two runs one after the other. */
  lemma CompareAfterCopy(p: Program, q: Program, s: Cpu, j: Job, n: int, s': Cpu, t: Cpu, t': Cpu)
    requires p.routine == Strcpy && Ready(s) && At(j, s, 0) && j.way == Up && j.n == n + 1
    requires IsString(j.m, j.s, n) && Allows(p.guard, j) && Finishes(p, s, t)
    requires j.d + n + 1 <= j.s || j.s + n + 1 <= j.d
    requires q.routine == Strcmp && Ready(s') && s'.mem == t.mem && s'.a0 == t.d0 && s'.a1 == s.a1
    requires AllowsRead(q.guard, j.d, n + 1) && AllowsRead(q.guard, j.s, n + 1) && Finishes(q, s', t')
    ensures t'.d0 == 0
  {
    hide Finishes, Allows, AllowsRead, Progress, IsString, Copied, Compare;
    var u := StrcpyRuns(p, s, j, n);
    FinishesOnce(p, s, t, u);
    StringInMemory(j.m, j.s, n);
    CopyIsString(j.m, j.d, j.s, n);
    StringKept(j.m, j.d, j.s, n + 1, j.s, n);
    var u' := StrcmpRuns(q, s', n, n);
    FinishesOnce(q, s', t', u');
    CompareSame(j.m[j.s..j.s + n]);
  }

  lemma StringInMemory(m: seq<byte>, a: int, n: int)
    requires IsString(m, a, n)
    ensures 0 <= a && 0 <= n && a + n < |m|
  {
  }

  lemma {:induction false} CompareSame(x: seq<byte>)
    ensures Compare(x, x) == 0
  {
    if x == [] {
    } else {
      CompareSame(x[1..]);
    }
  }

  /** After strcat the destination string is the concatenation; what came before it is kept. */
  lemma ConcatIsString(m: seq<byte>, d: int, k: int, s: int, n: int)
    requires IsString(m, d, k) && IsString(m, s, n) && d + k + n + 1 <= |m|
    ensures var m' := Copied(m, d + k, s, n + 1);
      IsString(m', d, k + n) && m'[d..d + k + n] == m[d..d + k] + m[s..s + n] && m'[..d + k] == m[..d + k]
  {
    CopyIsString(m, d + k, s, n);
    var m' := Copied(m, d + k, s, n + 1);
    assert forall i :: d <= i < d + k ==> m'[i] == m'[..d + k][i] == m[i];
    assert m'[d..d + k + n] == m'[d..d + k] + m'[d + k..d + k + n];
  }

  /** strlen after strcat is the sum of the lengths: the two runs one after the other. */
  lemma LengthAfterConcat(p: Program, q: Program, s: Cpu, k: int, j: Job, n: int, s': Cpu, t: Cpu, t': Cpu)
    requires p.routine == Strcat && Ready(s) && IsString(s.mem, s.a0, k) && AllowsRead(p.guard, s.a0, k + 1)
    requires Sound(j) && j.way == Up && j.n == n + 1 && j.m == s.mem && j.d == s.a0 + k && j.s == s.a1
    requires IsString(j.m, j.s, n) && Allows(p.guard, j) && Finishes(p, s, t)
    requires q.routine == Strlen && Ready(s') && s'.mem == t.mem && s'.a0 == t.d0
    requires AllowsRead(q.guard, s.a0, k + n + 1) && Finishes(q, s', t')
    ensures t'.d0 == k + n
  {
    hide Finishes, Allows, AllowsRead, Progress, IsString, Copied;
    var u := StrcatRuns(p, s, k, j, n);
    FinishesOnce(p, s, t, u);
    StringInMemory(j.m, j.s, n);
    ConcatIsString(s.mem, s.a0, k, s.a1, n);
    var u' := StrlenRuns(q, s', k + n);
    FinishesOnce(q, s', t', u');
  }

  /** LastMatch does not look outside its bytes. */
  lemma {:induction false} LastMatchLocal(m: seq<byte>, m': seq<byte>, a: int, b: int, k: int, c: byte)
    requires 0 <= a && 0 <= b && 0 <= k && a + k <= |m| && b + k <= |m'| && m[a..a + k] == m'[b..b + k]
    ensures LastMatch(m', b, k, c) == LastMatch(m, a, k, c)
  {
    if k == 0 {
    } else {
      assert m[a + k - 1] == m[a..a + k][k - 1] && m'[b + k - 1] == m'[b..b + k][k - 1];
      assert m[a..a + k - 1] == m[a..a + k][..k - 1] && m'[b..b + k - 1] == m'[b..b + k][..k - 1];
      LastMatchLocal(m, m', a, b, k - 1, c);
    }
  }

  /** The last match in k + i bytes is the one in the last i bytes if they have one. */
  lemma {:induction false} LastMatchSplit(m: seq<byte>, a: int, k: int, i: int, c: byte)
    requires 0 <= a && 0 <= k && 0 <= i && a + k + i <= |m|
    ensures LastMatch(m, a, k + i, c) ==
            match LastMatch(m, a + k, i, c)
            case Some(x) => Some(k + x)
            case None => LastMatch(m, a, k, c)
  {
    if i == 0 {
    } else {
      LastMatchSplit(m, a, k, i - 1, c);
    }
  }

  /** strrchr for a character in a concatenation: search the appended string first, and the old
      destination only if it has no match. */
  lemma SearchAfterConcat(m: seq<byte>, d: int, k: int, s: int, n: int, c: byte)
    requires IsString(m, d, k) && IsString(m, s, n) && d + k + n + 1 <= |m| && c != 0
    ensures LastMatch(Copied(m, d + k, s, n + 1), d, k + n + 1, c) ==
            match LastMatch(m, s, n + 1, c)
            case Some(x) => Some(k + x)
            case None => LastMatch(m, d, k + 1, c)
  {
    hide Copied, IsString, LastMatch;
    StringInMemory(m, s, n);
    StringInMemory(m, d, k);
    var m' := Copied(m, d + k, s, n + 1);
    AppendedBytes(m, d, k, s, n);
    LastMatchSplit(m', d, k, n + 1, c);
    LastMatchLocal(m, m', s, d + k, n + 1, c);
    LastMatchLocal(m, m', d, d, k, c);
    NulDoesNotMatch(m, d, k, c);
  }

  lemma PointerCases(a: u32)
    ensures Pointer(a, None) == 0 && forall x :: Pointer(a, Some(x)) == a + x
  {
  }

  /** strrchr after strcat, for a character: the two runs one after the other. */
  lemma SearchRunAfterConcat(p: Program, q: Program, s: Cpu, k: int, j: Job, n: int, s': Cpu, t: Cpu, t': Cpu)
    requires p.routine == Strcat && Ready(s) && IsString(s.mem, s.a0, k) && AllowsRead(p.guard, s.a0, k + 1)
    requires Sound(j) && j.way == Up && j.n == n + 1 && j.m == s.mem && j.d == s.a0 + k && j.s == s.a1
    requires IsString(j.m, j.s, n) && Allows(p.guard, j) && Finishes(p, s, t)
    requires q.routine == Strrchr && Ready(s') && s'.mem == t.mem && s'.a0 == t.d0 && s'.d1 % 0x100 != 0
    requires AllowsRead(q.guard, s.a0, k + n + 1) && Finishes(q, s', t')
    ensures s.a1 + n + 1 <= |s.mem| && s.a0 + k + 1 <= |s.mem|
    ensures var c := s'.d1 % 0x100;
      t'.d0 == match LastMatch(s.mem, s.a1, n + 1, c)
               case Some(x) => s.a0 + k + x
               case None => match LastMatch(s.mem, s.a0, k + 1, c)
                 case Some(x) => s.a0 + x
                 case None => 0
  {
    PointerCases(s.a0);
    hide Finishes, Allows, AllowsRead, Progress, IsString, Copied, LastMatch, Pointer;
    var u := StrcatRuns(p, s, k, j, n);
    FinishesOnce(p, s, t, u);
    StringInMemory(j.m, j.s, n);
    StringInMemory(s.mem, s.a0, k);
    ConcatIsString(s.mem, s.a0, k, s.a1, n);
    var u' := StrrchrRuns(q, s', k + n);
    FinishesOnce(q, s', t', u');
    SearchAfterConcat(s.mem, s.a0, k, s.a1, n, s'.d1 % 0x100);
  }

  lemma AppendedBytes(m: seq<byte>, d: int, k: int, s: int, n: int)
    requires IsString(m, d, k) && IsString(m, s, n) && d + k + n + 1 <= |m|
    ensures var m' := Copied(m, d + k, s, n + 1);
      m'[d + k..d + k + (n + 1)] == m[s..s + (n + 1)] && m'[d..d + k] == m[d..d + k]
  {
  }

  lemma NulDoesNotMatch(m: seq<byte>, d: int, k: int, c: byte)
    requires IsString(m, d, k) && c != 0
    ensures LastMatch(m, d, k + 1, c) == LastMatch(m, d, k, c)
  {
  }

  // ---------- counted comparison ----------

  function Cut(x: seq<byte>, n: nat): seq<byte> {
    if |x| <= n then x else x[..n]
  }

  /** Cutting both texts after n characters does not change the comparison when one of them has
      ended by then: strncmp is strcmp as soon as n exceeds the length of either string. */
  lemma {:induction false} CompareCut(x: seq<byte>, y: seq<byte>, n: nat)
    requires |x| < n || |y| < n
    ensures Compare(Cut(x, n), Cut(y, n)) == Compare(x, y)
  {
    if x == [] || y == [] || x[0] != y[0] {
    } else {
      assert Cut(x, n)[1..] == Cut(x[1..], n - 1) && Cut(y, n)[1..] == Cut(y[1..], n - 1);
      CompareCut(x[1..], y[1..], n - 1);
    }
  }

  /** A string cut off after n bytes. */
  lemma StringCut(m: seq<byte>, a: int, x: int, n: nat)
    requires IsString(m, a, x)
    ensures var k := if x < n then x else n;
      a + x <= |m| && IsCut(m, a, k, n) && m[a..a + k] == Cut(m[a..a + x], n)
  {
  }

  /** strncmp is strcmp as soon as n exceeds the length of either string, up to the greatest count it
      serves: the two runs leave the same d0. */
  lemma StrncmpAsStrcmp(p: Program, q: Program, s: Cpu, x: int, y: int, s': Cpu, t: Cpu, t': Cpu)
    requires p.routine == Strcmp && Ready(s) && IsString(s.mem, s.a0, x) && IsString(s.mem, s.a1, y)
    requires AllowsRead(p.guard, s.a0, x + 1) && AllowsRead(p.guard, s.a1, y + 1) && Finishes(p, s, t)
    requires q.routine == Strncmp && Ready(s') && s'.mem == s.mem && s'.a0 == s.a0 && s'.a1 == s.a1
    requires AllowsRead(q.guard, s.a0, if x < s'.d2 then x + 1 else s'.d2)
    requires AllowsRead(q.guard, s.a1, if y < s'.d2 then y + 1 else s'.d2) && Finishes(q, s', t')
    requires s'.d2 <= TWO31 && (x < s'.d2 || y < s'.d2)
    ensures t'.d0 == t.d0
  {
    hide Finishes, AllowsRead, IsString, IsCut, Compare, Cut, Signed;
    var n := s'.d2;
    StringInMemory(s.mem, s.a0, x);
    StringInMemory(s.mem, s.a1, y);
    StringCut(s.mem, s.a0, x, n);
    StringCut(s.mem, s.a1, y, n);
    var u := StrcmpRuns(p, s, x, y);
    FinishesOnce(p, s, t, u);
    var u' := StrncmpRuns(q, s', if x < n then x else n, if y < n then y else n);
    FinishesOnce(q, s', t', u');
    CompareCut(s.mem[s.a0..s.a0 + x], s.mem[s.a1..s.a1 + y], n);
  }

  lemma CutIsText(m: seq<byte>, a: int, x: int, n: int)
    requires IsCut(m, a, x, n)
    ensures a + x <= |m| && Text(m[a..a + x])
  {
  }

  lemma ZeroOnly(v: u32)
    ensures Signed(v) == 0 <==> v == 0
  {
  }

  /** A run of strncmp gives 0 exactly when the two texts, cut off after the count, are equal. */
  lemma StrncmpZero(p: Program, s: Cpu, x: int, y: int, t: Cpu)
    requires p.routine == Strncmp && Ready(s)
    requires Comparable(p.guard, Pair(s.mem, s.a0, x, s.a1, y, Count(s.d2))) && Finishes(p, s, t)
    ensures s.a0 + x <= |s.mem| && s.a1 + y <= |s.mem| && 0 <= x && 0 <= y
    ensures t.d0 == 0 <==> s.mem[s.a0..s.a0 + x] == s.mem[s.a1..s.a1 + y]
  {
    hide Finishes, AllowsRead, IsCut, Compare, Signed, Text;
    CutInMemory(s.mem, s.a0, x, Count(s.d2));
    CutInMemory(s.mem, s.a1, y, Count(s.d2));
    var u := StrncmpRuns(p, s, x, y);
    FinishesOnce(p, s, t, u);
    CutIsText(s.mem, s.a0, x, Count(s.d2));
    CutIsText(s.mem, s.a1, y, Count(s.d2));
    CompareEqual(s.mem[s.a0..s.a0 + x], s.mem[s.a1..s.a1 + y]);
    ZeroOnly(t.d0);
  }

  // ---------- counts above 2^31 ----------

  /** A call of strncpy that C99 defines: the blocks are in memory and do not overlap. */
  predicate CopyCall(m: seq<byte>, d: u32, s: u32, l: int, n: u32) {
    && IsCut(m, s, l, n) && d + n <= |m| <= TWO32
    && (d + n <= s || s + (if l < n then l + 1 else n) <= d)
  }

  /** A state in which strncpy is about to run for such a call, under a guard that allows what the
      call is entitled to. */
  predicate StrncpyCalled(p: Program, c: Cpu, d: u32, s: u32, l: int, n: u32, size: nat) {
    && p.routine == Strncpy && Ready(c) && |c.mem| == size && c.a0 == d && c.a1 == s && c.d1 == n
    && CopyCall(c.mem, d, s, l, n)
    && Inside(p.guard.write, d, n) && AllowsRead(p.guard, s, if l < n then l + 1 else n)
  }

  /** Every run of strncpy with these arguments, in every memory of this size in which C99 defines
      the call, does what C99 asks. */
  ghost predicate StrncpyIsC99(d: u32, s: u32, n: u32, size: nat) {
    forall p: Program, c: Cpu, t: Cpu, l: int |
        StrncpyCalled(p, c, d, s, l, n, size) && Finishes(p, c, t) ::
      t.d0 == d && t.mem == PaddedCopy(c.mem, d, s, l, n)
  }

  /** What the run leaves: the padded copy for counts up to 2^31, and memory as it was beyond. */
  lemma StrncpyLeaves(p: Program, c: Cpu, d: u32, s: u32, l: int, n: u32, size: nat, t: Cpu)
    requires StrncpyCalled(p, c, d, s, l, n, size) && Finishes(p, c, t)
    ensures t.d0 == d && t.mem == if n <= TWO31 then PaddedCopy(c.mem, d, s, l, n) else c.mem
  {
    hide Finishes, PaddedCopy;
    var u := StrncpyRuns(p, c, if n <= TWO31 then l else 0);
    FinishesOnce(p, c, t, u);
    NothingPadded(c.mem, d, s);
  }

  /** The registers and memory of a call, all else zero. */
  function Calling(a0: u32, a1: u32, d1: u32, d2: u32, m: seq<byte>): Cpu {
    Cpu(0, d1, d2, a0, a1, false, false, false, 0, m, 0, false)
  }

  function Unchecked(r: Routine): Program {
    Program(r, Guard(EVERYWHERE, EVERYWHERE, EVERYWHERE, AnyAddress))
  }

  /** A call that C99 defines, and that finishes with its destination unwritten. */
  lemma StrncpyTooMany(d: u32, s: u32, n: u32, size: nat) returns (c: Cpu, t: Cpu)
    requires TWO31 < n && d + n <= size <= TWO32 && s < size && (s < d || d + n <= s)
    ensures c == Calling(d, s, n, 0, seq(size, i => if i == d then 1 else 0))
    ensures StrncpyCalled(Unchecked(Strncpy), c, d, s, 0, n, size) && Finishes(Unchecked(Strncpy), c, t)
    ensures t.mem == c.mem && c.mem[d] == 1 && PaddedCopy(c.mem, d, s, 0, n)[d] == 0
  {
    hide Finishes;
    c := Calling(d, s, n, 0, seq(size, i => if i == d then 1 else 0));
    t := StrncpyRuns(Unchecked(Strncpy), c, 0);
    StrncpyLeaves(Unchecked(Strncpy), c, d, s, 0, n, size, t);
  }

  /** For instance 2^31 + 1 bytes at 0, from an empty string right behind them. */
  lemma StrncpyFails() returns (c: Cpu, t: Cpu)
    ensures StrncpyCalled(Unchecked(Strncpy), c, 0, 0x8000_0001, 0, 0x8000_0001, 0x8000_0002)
    ensures Finishes(Unchecked(Strncpy), c, t) && t.mem == c.mem && c.mem[0] == 1 && c.mem[0x8000_0001] == 0
    ensures !StrncpyIsC99(0, 0x8000_0001, 0x8000_0001, 0x8000_0002)
  {
    hide Finishes, PaddedCopy;
    c, t := StrncpyTooMany(0, 0x8000_0001, 0x8000_0001, 0x8000_0002);
  }

  /** Every run of strncpy does what C99 asks exactly when the count is at most 2^31: beyond that the
      sign test ends the loop at once and nothing is written. The arguments are any for which there
      is a call that C99 defines. */
  lemma StrncpyCount(d: u32, s: u32, n: u32, size: nat)
    requires d + n <= size <= TWO32 && s < size && (s < d || d + n <= s)
    ensures StrncpyIsC99(d, s, n, size) <==> n <= TWO31
  {
    hide Finishes, PaddedCopy, StrncpyCalled;
    if n <= TWO31 {
      forall p: Program, c: Cpu, t: Cpu, l: int | StrncpyCalled(p, c, d, s, l, n, size) && Finishes(p, c, t)
        ensures CopyCall(c.mem, d, s, l, n) && t.d0 == d && t.mem == PaddedCopy(c.mem, d, s, l, n)
      {
        StrncpyCallDefined(p, c, d, s, l, n, size);
        StrncpyLeaves(p, c, d, s, l, n, size, t);
      }
    } else {
      var c, t := StrncpyTooMany(d, s, n, size);
    }
  }

  lemma StrncpyCallDefined(p: Program, c: Cpu, d: u32, s: u32, l: int, n: u32, size: nat)
    requires StrncpyCalled(p, c, d, s, l, n, size)
    ensures CopyCall(c.mem, d, s, l, n)
  {
  }

  /** A call of strncmp that C99 defines. */
  predicate CompareCall(m: seq<byte>, a: u32, x: int, b: u32, y: int, n: u32) {
    IsCut(m, a, x, n) && IsCut(m, b, y, n) && |m| <= TWO32
  }

  predicate StrncmpCalled(p: Program, c: Cpu, a: u32, x: int, b: u32, y: int, n: u32, size: nat) {
    && p.routine == Strncmp && Ready(c) && |c.mem| == size && c.a0 == a && c.a1 == b && c.d2 == n
    && CompareCall(c.mem, a, x, b, y, n)
    && AllowsRead(p.guard, a, if x < n then x + 1 else n)
    && AllowsRead(p.guard, b, if y < n then y + 1 else n)
  }

  ghost predicate StrncmpIsC99(a: u32, b: u32, n: u32, size: nat) {
    forall p: Program, c: Cpu, t: Cpu, x: int, y: int |
        StrncmpCalled(p, c, a, x, b, y, n, size) && Finishes(p, c, t) ::
      Signed(t.d0) == Compare(c.mem[a..a + x], c.mem[b..b + y])
  }

  /** What the run answers: the comparison for counts up to 2^31, and "equal" beyond. */
  lemma StrncmpGives(p: Program, c: Cpu, a: u32, x: int, b: u32, y: int, n: u32, size: nat, t: Cpu)
    requires StrncmpCalled(p, c, a, x, b, y, n, size) && Finishes(p, c, t)
    ensures Signed(t.d0) == if n <= TWO31 then Compare(c.mem[a..a + x], c.mem[b..b + y]) else 0
  {
    hide Finishes, Signed, Compare;
    var u := StrncmpRuns(p, c, if n <= TWO31 then x else 0, if n <= TWO31 then y else 0);
    FinishesOnce(p, c, t, u);
    CompareSame([]);
    assert c.mem[a..a + 0] == [] && c.mem[b..b + 0] == [];
  }

  lemma CutOnce(m: seq<byte>, a: int, x: int, y: int, n: int)
    requires IsCut(m, a, x, n) && IsCut(m, a, y, n)
    ensures x == y
  {
  }

  /** A call that C99 defines on two different strings, and that finishes with "equal". */
  lemma StrncmpTooMany(a: u32, b: u32, n: u32, size: nat) returns (c: Cpu, x: int, y: int, t: Cpu)
    requires TWO31 < n && a < size <= TWO32 && b < size && a != b
    ensures var one := if a + 1 < size then a else b;
      c == Calling(a, b, 0, n, seq(size, i => if i == one then 1 else 0))
    ensures StrncmpCalled(Unchecked(Strncmp), c, a, x, b, y, n, size) && Finishes(Unchecked(Strncmp), c, t)
    ensures t.d0 == 0 && Compare(c.mem[a..a + x], c.mem[b..b + y]) == if a + 1 < size then 1 else -1
  {
    hide Finishes;
    var one := if a + 1 < size then a else b;
    c := Calling(a, b, 0, n, seq(size, i => if i == one then 1 else 0));
    x, y := if one == a then 1 else 0, if one == b then 1 else 0;
    assert c.mem[a..a + x] == (if one == a then [1] else []) && c.mem[b..b + y] == (if one == b then [1] else []);
    t := StrncmpRuns(Unchecked(Strncmp), c, 0, 0);
    StrncmpGives(Unchecked(Strncmp), c, a, x, b, y, n, size, t);
  }

  /** For instance a string of one character at 0 and the empty string at 2. */
  lemma StrncmpFails() returns (c: Cpu, t: Cpu)
    ensures c == Calling(0, 2, 0, 0x8000_0001, [1, 0, 0])
    ensures StrncmpCalled(Unchecked(Strncmp), c, 0, 1, 2, 0, 0x8000_0001, 3)
    ensures Finishes(Unchecked(Strncmp), c, t) && t.d0 == 0 && Compare([1], []) == 1
    ensures !StrncmpIsC99(0, 2, 0x8000_0001, 3)
  {
    hide Finishes;
    var x, y;
    c, x, y, t := StrncmpTooMany(0, 2, 0x8000_0001, 3);
    assert c.mem == [1, 0, 0];
  }

  /** Every run of strncmp does what C99 asks exactly when the count is at most 2^31 or both
      arguments are the same array; otherwise it calls everything equal. */
  lemma StrncmpCount(a: u32, b: u32, n: u32, size: nat)
    requires a < size <= TWO32 && b < size
    ensures StrncmpIsC99(a, b, n, size) <==> n <= TWO31 || a == b
  {
    hide Finishes, Compare, Signed, StrncmpCalled;
    if n <= TWO31 || a == b {
      forall p: Program, c: Cpu, t: Cpu, x: int, y: int |
          StrncmpCalled(p, c, a, x, b, y, n, size) && Finishes(p, c, t)
        ensures CompareCall(c.mem, a, x, b, y, n)
        ensures Signed(t.d0) == Compare(c.mem[a..a + x], c.mem[b..b + y])
      {
        StrncmpCallDefined(p, c, a, x, b, y, n, size);
        StrncmpGives(p, c, a, x, b, y, n, size, t);
        if a == b {
          CutOnce(c.mem, a, x, y, n);
          CompareSame(c.mem[a..a + x]);
        }
      }
    } else {
      var c, x, y, t := StrncmpTooMany(a, b, n, size);
    }
  }

  lemma StrncmpCallDefined(p: Program, c: Cpu, a: u32, x: int, b: u32, y: int, n: u32, size: nat)
    requires StrncmpCalled(p, c, a, x, b, y, n, size)
    ensures CompareCall(c.mem, a, x, b, y, n)
  {
  }
}
