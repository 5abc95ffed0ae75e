/** What the block routines must do to memory, and how a block grows by one transfer. */
module Blocks {
  import opened Words
  import opened M68k

  /** Memory m with the bytes bs written at address a. */
  function Splice(m: seq<byte>, a: int, bs: seq<byte>): (r: seq<byte>)
    requires 0 <= a && a + |bs| <= |m|
    ensures |r| == |m|
  {
    m[..a] + bs + m[a + |bs|..]
  }

  /** Memory m after the n bytes that were at s are at d: the result C99 asks of memcpy (7.21.2.1)
      and memmove (7.21.2.2), where the source is read as it was before. */
  function Copied(m: seq<byte>, d: int, s: int, n: int): (r: seq<byte>)
    requires 0 <= n && 0 <= d && d + n <= |m| && 0 <= s && s + n <= |m|
    ensures |r| == |m|
  {
    Splice(m, d, m[s..s + n])
  }

  /** Memory m after n bytes at d are b: memset (C99 7.21.6.1). */
  function Filled(m: seq<byte>, d: int, b: byte, n: int): (r: seq<byte>)
    requires 0 <= n && 0 <= d && d + n <= |m|
    ensures |r| == |m|
  {
    Splice(m, d, seq(n, _ => b))
  }

  /** Byte by byte. */
  lemma CopiedBytes(m: seq<byte>, d: int, s: int, n: int)
    requires 0 <= n && 0 <= d && d + n <= |m| && 0 <= s && s + n <= |m|
    ensures |Copied(m, d, s, n)| == |m|
    ensures forall i {:trigger Copied(m, d, s, n)[i]} :: 0 <= i < |m| ==>
              Copied(m, d, s, n)[i] == if d <= i < d + n then m[s + (i - d)] else m[i]
  {
  }

  lemma FilledBytes(m: seq<byte>, d: int, b: byte, n: int)
    requires 0 <= n && 0 <= d && d + n <= |m|
    ensures |Filled(m, d, b, n)| == |m|
    ensures forall i :: 0 <= i < |m| ==> Filled(m, d, b, n)[i] == if d <= i < d + n then b else m[i]
  {
  }

  /** The value whose bytes, at the given size, are all b. */
  function Replicated(b: byte, sz: Size): u32 {
    match sz
    case B => b
    case W => b * 0x101
    case L => b * 0x101_0101
  }

  lemma StoreBytes(m: seq<byte>, a: int, sz: Size, v: u32, bs: seq<byte>)
    requires 0 <= a && a + Bytes(sz) <= |m|
    requires |bs| == Bytes(sz) && v == Load(bs, 0, sz)
    ensures Store(m, a, sz, v) == Splice(m, a, bs)
  {
    match sz
    case B =>
    case W =>
      var b0: int, b1: int := bs[0], bs[1];
      assert v / 0x100 == b0 && v % 0x100 == b1;
    case L =>
      LongBytes(bs[0], bs[1], bs[2], bs[3]);
  }

  lemma LongBytes(b0: byte, b1: byte, b2: byte, b3: byte)
    ensures var i0: int, i1: int, i2: int, i3: int := b0, b1, b2, b3;
      var v := i0 * 0x100_0000 + i1 * 0x1_0000 + i2 * 0x100 + i3;
      v / 0x100_0000 == i0 && v / 0x1_0000 % 0x100 == i1 && v / 0x100 % 0x100 == i2 && v % 0x100 == i3
  {
    var i0: int, i1: int, i2: int, i3: int := b0, b1, b2, b3;
    var v := i0 * 0x100_0000 + i1 * 0x1_0000 + i2 * 0x100 + i3;
    assert v / 0x1_0000 == i0 * 0x100 + i1;
    assert v / 0x100 == i0 * 0x1_0000 + i1 * 0x100 + i2;
  }

  /** Memory is big-endian: the first half of a value is its upper half. */
  lemma BigEndian(m: seq<byte>, a: int)
    requires 0 <= a
    ensures a + 1 <= |m| ==> Load(m, a, B) == m[a]
    ensures a + 2 <= |m| ==> Load(m, a, W) == 0x100 * Load(m, a, B) + Load(m, a + 1, B)
    ensures a + 4 <= |m| ==> Load(m, a, L) == 0x1_0000 * Load(m, a, W) + Load(m, a + 2, W)
  {
  }

  /** What is stored is loaded, and nothing else changes. */
  lemma StoredIsLoaded(m: seq<byte>, a: int, sz: Size, v: u32)
    requires 0 <= a && a + Bytes(sz) <= |m|
    ensures Load(Store(m, a, sz, v), a, sz) == Low(v, sz)
    ensures forall i :: 0 <= i < |m| && !(a <= i < a + Bytes(sz)) ==> Store(m, a, sz, v)[i] == m[i]
  {
    match sz
    case B =>
    case W => WordParts(v);
    case L => LongParts(v);
  }

  lemma WordParts(v: u32)
    ensures v / 0x100 % 0x100 * 0x100 + v % 0x100 == v % 0x1_0000
  {
    var q := v / 0x1_0000;
    assert v / 0x100 == 0x100 * q + v % 0x1_0000 / 0x100;
  }

  lemma LongParts(v: u32)
    ensures v / 0x100_0000 * 0x100_0000 + v / 0x1_0000 % 0x100 * 0x1_0000 + v / 0x100 % 0x100 * 0x100 + v % 0x100 == v
  {
    var a, b := v / 0x100, v / 0x1_0000;
    assert b == a / 0x100 && v / 0x100_0000 == b / 0x100;
  }

  /** A memory-to-memory move of one chunk copies its bytes, all read before any is written. */
  lemma MoveChunk(m: seq<byte>, a: int, b: int, sz: Size)
    requires 0 <= a && a + Bytes(sz) <= |m| && 0 <= b && b + Bytes(sz) <= |m|
    ensures Store(m, a, sz, Load(m, b, sz)) == Copied(m, a, b, Bytes(sz))
  {
    StoreBytes(m, a, sz, Load(m, b, sz), m[b..b + Bytes(sz)]);
  }

  lemma FillChunk(m: seq<byte>, a: int, b: byte, sz: Size)
    requires 0 <= a && a + Bytes(sz) <= |m|
    ensures Store(m, a, sz, Replicated(b, sz)) == Filled(m, a, b, Bytes(sz))
  {
    StoreBytes(m, a, sz, Replicated(b, sz), seq(Bytes(sz), _ => b));
  }

  /** Growing a copy upwards by j bytes, reading from the memory as it is by then. */
  lemma CopyUp(m: seq<byte>, d: int, s: int, k: int, j: int)
    requires 0 <= k && 0 <= j && 0 <= d && d + k + j <= |m| && 0 <= s && s + k + j <= |m|
    requires d <= s || s + k + j <= d
    ensures Copied(Copied(m, d, s, k), d + k, s + k, j) == Copied(m, d, s, k + j)
  {
    var m1 := Copied(m, d, s, k);
    assert m1[s + k..s + k + j] == m[s + k..s + k + j];
    assert m[s..s + k + j] == m[s..s + k] + m[s + k..s + k + j];
  }

  /** Growing a copy downwards by j bytes. */
  lemma CopyDown(m: seq<byte>, d: int, s: int, k: int, j: int)
    requires 0 <= k && 0 <= j && j <= d && d + k <= |m| && j <= s && s + k <= |m|
    requires s <= d || d + k <= s - j
    ensures Copied(Copied(m, d, s, k), d - j, s - j, j) == Copied(m, d - j, s - j, k + j)
  {
    var m1 := Copied(m, d, s, k);
    assert m1[s - j..s] == m[s - j..s];
    assert m[s - j..s + k] == m[s - j..s] + m[s..s + k];
  }

  lemma FillUp(m: seq<byte>, d: int, b: byte, k: int, j: int)
    requires 0 <= k && 0 <= j && 0 <= d && d + k + j <= |m|
    ensures Filled(Filled(m, d, b, k), d + k, b, j) == Filled(m, d, b, k + j)
  {
    assert seq(k + j, _ => b) == seq(k, _ => b) + seq(j, _ => b);
  }

  // ---------- one job, byte count by byte count ----------

  /** Up and Down copy; Set fills. */
  datatype Way = Up | Down | Set

  /** Transfer n bytes in memory m: from s to d, or, for Set, the byte b to d. */
  datatype Job = Job(way: Way, m: seq<byte>, d: int, s: int, n: int, b: byte)

  /** The blocks lie in memory, and the copying direction is safe for their overlap. */
  predicate Sound(j: Job) {
    && 0 <= j.n && 0 <= j.d && j.d + j.n <= |j.m| <= TWO32
    && (j.way != Set ==> 0 <= j.s && j.s + j.n <= |j.m|)
    && (j.way == Up ==> j.d <= j.s || j.s + j.n <= j.d)
    && (j.way == Down ==> j.s <= j.d || j.d + j.n <= j.s)
  }

  /** Memory when k of the n bytes are done. */
  function Progress(j: Job, k: int): (m: seq<byte>)
    requires Sound(j) && 0 <= k <= j.n
    ensures |m| == |j.m|
  {
    match j.way
    case Up => Copied(j.m, j.d, j.s, k)
    case Down => Copied(j.m, j.d + j.n - k, j.s + j.n - k, k)
    case Set => Filled(j.m, j.d, j.b, k)
  }

  /** Where the next chunk of the given number of bytes goes when k bytes are done. */
  function Target(j: Job, k: int, bytes: int): int {
    if j.way == Down then j.d + j.n - k - bytes else j.d + k
  }

  function Origin(j: Job, k: int, bytes: int): int {
    if j.way == Down then j.s + j.n - k - bytes else j.s + k
  }

  lemma ProgressStarts(j: Job)
    requires Sound(j)
    ensures Progress(j, 0) == j.m
  {
  }

  lemma ProgressEnds(j: Job)
    requires Sound(j)
    ensures Progress(j, j.n) == if j.way == Set then Filled(j.m, j.d, j.b, j.n) else Copied(j.m, j.d, j.s, j.n)
  {
  }

  /** One transfer: the next chunk of the job is done. */
  lemma ProgressGrows(j: Job, k: int, sz: Size)
    requires Sound(j) && 0 <= k && k + Bytes(sz) <= j.n
    ensures var m := Progress(j, k);
      var v := if j.way == Set then Replicated(j.b, sz) else Load(m, Origin(j, k, Bytes(sz)), sz);
      Store(m, Target(j, k, Bytes(sz)), sz, v) == Progress(j, k + Bytes(sz))
  {
    hide Load, Store, Copied, Filled, Replicated;
    var m, z := Progress(j, k), Bytes(sz);
    match j.way
    case Up =>
      MoveChunk(m, j.d + k, j.s + k, sz);
      CopyUp(j.m, j.d, j.s, k, z);
    case Down =>
      MoveChunk(m, j.d + j.n - k - z, j.s + j.n - k - z, sz);
      CopyDown(j.m, j.d + j.n - k, j.s + j.n - k, k, z);
    case Set =>
      FillChunk(m, j.d + k, j.b, sz);
      FillUp(j.m, j.d, j.b, k, z);
  }
}
