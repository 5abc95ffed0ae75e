/** Machine integers of the 68k: unsigned 32-bit values kept as `int`, and bytes.
    Every wrap-around is written out with `Wrap`, every masking with `BitAnd`. */
module Words {
  const TWO31 := 0x8000_0000
  const TWO32 := 0x1_0000_0000

  type u32 = x: int | 0 <= x < 0x1_0000_0000
  type byte = x: int | 0 <= x < 0x100

  /** Reduction modulo 2^32. */
  function Wrap(x: int): (r: u32)
    ensures 0 <= x < TWO32 ==> r == x
    ensures TWO32 <= x < 2 * TWO32 ==> r == x - TWO32
    ensures -TWO32 <= x < 0 ==> r == x + TWO32
  {
    x % TWO32
  }

  /** The reduction keeps the alignment of an address. */
  lemma WrapAligned(x: int)
    ensures Wrap(x) % 4 == x % 4
    ensures Wrap(x) % 2 == x % 2
  {
    var q := x / TWO32;
    assert x == Wrap(x) + 4 * (0x4000_0000 * q);
    assert x == Wrap(x) + 2 * (TWO31 * q);
  }

  /** The signed reading of a 32-bit register. */
  function Signed(x: u32): (r: int)
    ensures -TWO31 <= r < TWO31
    ensures Wrap(r) == x
  {
    if x < TWO31 then x else x - TWO32
  }

  /** Bitwise and. */
  function BitAnd(x: nat, y: nat): (r: nat)
    ensures r <= x && r <= y
  {
    if x == 0 || y == 0 then 0
    else (if x % 2 == 1 && y % 2 == 1 then 1 else 0) + 2 * BitAnd(x / 2, y / 2)
  }

  lemma BitAndOne(x: nat)
    ensures BitAnd(x, 1) == BitAnd(1, x) == x % 2
  {
  }

  /** Masking with 3 is the remainder modulo 4. */
  lemma BitAndThree(x: nat)
    ensures BitAnd(x, 3) == BitAnd(3, x) == x % 4
  {
    if x != 0 {
      BitAndOne(x / 2);
    }
  }

  lemma TwoTimes(v: int, q: int)
    requires v == 2 * q
    ensures v % 2 == 0 && v / 2 == q
  {
  }

  lemma FourTimes(v: int, q: int)
    requires v == 4 * q
    ensures v % 4 == 0
  {
  }

  lemma FourLess(v: int)
    requires v % 2 == 0
    ensures (v - 4) % 2 == 0
  {
    TwoTimes(v - 4, v / 2 - 2);
  }
}
