/** The C string functions as functions of memory, and their algebra. */
module CStrings {
  import opened Options
  import opened Words
  import opened Blocks

  /** A string of n characters starts at a, with its NUL in memory. */
  predicate IsString(m: seq<byte>, a: int, n: int) {
    && 0 <= a && 0 <= n && a + n < |m|
    && m[a + n] == 0
    && forall i :: a <= i < a + n ==> m[i] != 0
  }

  /** The array at a, cut off after n bytes, is a string of l characters: either its NUL comes
      after l < n characters, or there is none among n. Only those bytes need be in memory. */
  predicate IsCut(m: seq<byte>, a: int, l: int, n: int) {
    && 0 <= a && 0 <= l <= n
    && a + (if l < n then l + 1 else n) <= |m|
    && (forall i :: a <= i < a + l ==> m[i] != 0)
    && (l < n ==> m[a + l] == 0)
  }

  /** strcmp on the characters of two strings: the difference of the first characters that differ,
      the end of a string counting as 0 (C99 7.21.4.2, characters as unsigned char). */
  function Compare(x: seq<byte>, y: seq<byte>): (r: int)
    ensures -0x100 < r < 0x100
  {
    if x == [] || y == [] then (if x == [] then 0 else x[0]) - (if y == [] then 0 else y[0])
    else if x[0] != y[0] then x[0] as int - y[0] as int
    else Compare(x[1..], y[1..])
  }

  /** The last of the first k bytes at a that equals c. */
  function LastMatch(m: seq<byte>, a: int, k: int, c: byte): (r: Option<int>)
    requires 0 <= a && 0 <= k && a + k <= |m|
    ensures match r
            case Some(i) => 0 <= i < k && m[a + i] == c && forall j :: a + i < j < a + k ==> m[j] != c
            case None => forall j :: a <= j < a + k ==> m[j] != c
  {
    if k == 0 then None else if m[a + k - 1] == c then Some(k - 1) else LastMatch(m, a, k - 1, c)
  }

  /** i bytes of what strncpy writes: the first l source bytes, then zeros. */
  function Padded(m: seq<byte>, s: int, l: int, i: int): (r: seq<byte>)
    requires 0 <= s && 0 <= l && 0 <= i && s + (if i < l then i else l) <= |m|
    ensures |r| == i
  {
    if i <= l then m[s..s + i] else m[s..s + l] + seq(i - l, _ => 0)
  }

  /** Memory after strncpy (C99 7.21.2.4): exactly n bytes written, zeros after the string. */
  function PaddedCopy(m: seq<byte>, d: int, s: int, l: int, n: int): (r: seq<byte>)
    requires IsCut(m, s, l, n) && 0 <= d && d + n <= |m|
    ensures |r| == |m|
  {
    Splice(m, d, Padded(m, s, l, n))
  }

  /** Byte by byte: the l characters, then zeros up to n, and nothing else. */
  lemma PaddedBytes(m: seq<byte>, d: int, s: int, l: int, n: int)
    requires IsCut(m, s, l, n) && 0 <= d && d + n <= |m|
    ensures |PaddedCopy(m, d, s, l, n)| == |m|
    ensures forall i {:trigger PaddedCopy(m, d, s, l, n)[i]} :: 0 <= i < |m| ==>
              PaddedCopy(m, d, s, l, n)[i] ==
              if d <= i < d + l then m[s + (i - d)] else if d + l <= i < d + n then 0 else m[i]
  {
  }

  /** A count of zero writes nothing. */
  lemma NothingPadded(m: seq<byte>, d: int, s: int)
    requires 0 <= d <= |m| && 0 <= s <= |m|
    ensures PaddedCopy(m, d, s, 0, 0) == m
  {
  }

  // ---------- order ----------

  /** The characters of a string: no NUL among them. */
  predicate Text(x: seq<byte>) {
    0 !in x
  }

  lemma {:induction false} CompareEqual(x: seq<byte>, y: seq<byte>)
    requires Text(x) && Text(y)
    ensures Compare(x, y) == 0 <==> x == y
  {
    if x == [] || y == [] || x[0] != y[0] {
    } else {
      CompareEqual(x[1..], y[1..]);
      assert x == [x[0]] + x[1..] && y == [y[0]] + y[1..];
    }
  }

  lemma {:induction false} CompareAntisymmetric(x: seq<byte>, y: seq<byte>)
    ensures Compare(y, x) == -Compare(x, y)
  {
    if x == [] || y == [] || x[0] != y[0] {
    } else {
      CompareAntisymmetric(x[1..], y[1..]);
    }
  }

  lemma {:induction false} CompareTransitive(x: seq<byte>, y: seq<byte>, z: seq<byte>)
    requires Text(x) && Text(y) && Text(z)
    requires Compare(x, y) <= 0 && Compare(y, z) <= 0
    ensures Compare(x, z) <= 0
    ensures Compare(x, y) < 0 || Compare(y, z) < 0 ==> Compare(x, z) < 0
  {
    if x == [] || y == [] || z == [] || !(x[0] == y[0] == z[0]) {
    } else {
      CompareTransitive(x[1..], y[1..], z[1..]);
    }
  }

  /** A common prefix does not matter. */
  lemma {:induction false} CompareSkip(x: seq<byte>, y: seq<byte>, i: nat)
    requires i <= |x| && i <= |y| && x[..i] == y[..i]
    ensures Compare(x, y) == Compare(x[i..], y[i..])
  {
    if i == 0 {
    } else {
      assert x[0] == x[..i][0] && y[0] == y[..i][0];
      assert x[1..][..i - 1] == x[..i][1..] && y[1..][..i - 1] == y[..i][1..];
      CompareSkip(x[1..], y[1..], i - 1);
      assert x[1..][i - 1..] == x[i..] && y[1..][i - 1..] == y[i..];
    }
  }

  /** The value: the characters at the first place where the texts differ or one ends, an end being 0. */
  lemma CompareAtFirst(x: seq<byte>, y: seq<byte>, k: nat)
    requires k <= |x| && k <= |y| && x[..k] == y[..k]
    requires k == |x| || k == |y| || x[k] != y[k]
    ensures var u: int, v: int := if k < |x| then x[k] else 0, if k < |y| then y[k] else 0;
      Compare(x, y) == u - v
  {
    CompareSkip(x, y, k);
    assert k < |x| ==> x[k..][0] == x[k];
    assert k < |y| ==> y[k..][0] == y[k];
  }

  /** What makes the result negative: at the first place where they differ, x ends or has the
      smaller character. */
  lemma {:induction false} CompareLess(x: seq<byte>, y: seq<byte>) returns (k: nat)
    requires Text(x) && Text(y) && Compare(x, y) < 0
    ensures k <= |x| && k < |y| && x[..k] == y[..k]
    ensures k == |x| || x[k] < y[k]
  {
    if x == [] || x[0] != y[0] {
      k := 0;
    } else {
      var i := CompareLess(x[1..], y[1..]);
      k := i + 1;
      assert x[..k] == [x[0]] + x[1..][..i] && y[..k] == [y[0]] + y[1..][..i];
    }
  }
}
