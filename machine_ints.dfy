/** Fixed-width unsigned integers of the C code, as subsets of `int`.
    Wrap-around is never implicit: every place where the C code
    truncates a value to a narrower unsigned type calls one of the
    `Wrap` functions below. */
module MachineInts {

  type uint8 = x: int | 0 <= x < 0x100
  type uint16 = x: int | 0 <= x < 0x1_0000
  type uint32 = x: int | 0 <= x < 0x1_0000_0000
  type uint64 = x: int | 0 <= x < 0x1_0000_0000_0000_0000

  /** Truncation of an integer to `UInt16`. */
  function Wrap16(x: int): (r: uint16)
    ensures 0 <= x < 0x1_0000 ==> r == x
  {
    x % 0x1_0000
  }

  /** Truncation of an integer to `unsigned int`. */
  function Wrap32(x: int): (r: uint32)
    ensures 0 <= x < 0x1_0000_0000 ==> r == x
  {
    x % 0x1_0000_0000
  }

  /** Truncation of an integer to `uint64_t`. */
  function Wrap64(x: int): (r: uint64)
    ensures 0 <= x < 0x1_0000_0000_0000_0000 ==> r == x
  {
    x % 0x1_0000_0000_0000_0000
  }

  /** `2^k`, the range of a `k`-bit unsigned type. */
  function Pow2(k: nat): nat
  {
    if k == 0 then 1 else 2 * Pow2(k - 1)
  }

  lemma Pow2Widths()
    ensures Pow2(8) == 0x100
  {
    assert Pow2(4) == 0x10;
  }

  /** Bitwise OR of the low `width` bits of `a` and `b`: the C operator `|`
      followed by truncation to a `width`-bit unsigned type. */
  function BitOr(a: nat, b: nat, width: nat): (r: nat)
    decreases width
  {
    if width == 0 then 0
    else (if a % 2 == 1 || b % 2 == 1 then 1 else 0) + 2 * BitOr(a / 2, b / 2, width - 1)
  }

  lemma {:induction false} BitOrZero(a: nat, width: nat)
    requires a < Pow2(width)
    ensures BitOr(a, 0, width) == a
  {
    if width > 0 {
      BitOrZero(a / 2, width - 1);
    }
  }

  /** `hi << 8 | lo` truncated to the `UInt16` result type. The low byte of
      `hi << 8` is zero, so the result's low byte is `lo`'s, and its high
      byte is `hi`'s low byte OR-ed with `lo`'s high byte; bits above
      bit 15 are dropped. */
  function ShlOr16(hi: uint16, lo: uint16): (r: uint16)
  {
    BitOr(hi % 0x100, lo / 0x100, 8) % 0x100 * 0x100 + lo % 0x100
  }

  /** Two bytes joined by `hi << 8 | lo` give the value `hi * 256 + lo`. */
  lemma ShlOr16Bytes(hi: uint16, lo: uint16)
    requires hi < 0x100 && lo < 0x100
    ensures ShlOr16(hi, lo) == hi * 0x100 + lo
  {
    assert hi % 0x100 == hi && lo / 0x100 == 0 && lo % 0x100 == lo;
    Pow2Widths();
    BitOrZero(hi, 8);
    assert BitOr(hi, 0, 8) % 0x100 == hi;
  }
}
