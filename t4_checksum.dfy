/** `t4_calc_check_sum`: the two-accumulator running sum that the T4
    protocol embeds in every feature frame (ported from the Linux hid-alps
    driver). Both `UInt16` accumulators start at 0xFF; the byte range is
    consumed in chunks of at most 20 bytes, and after each chunk, and once
    more at the end, each accumulator folds its high byte back into its
    low byte. The result carries the second accumulator in its high byte
    and the first in its low byte.

    The lemmas at the end prove what the folding is for: the checksum is
    the Fletcher-16 checksum of the range (modulo 255, both sums seeded
    with 0xFF), each accumulator byte being a residue modulo 255. */
module T4Checksum {
  import opened MachineInts

  const SEED: uint16 := 0xFF
  const CHUNK: nat := 20
  /** The checksum gives 0, reading nothing, unless `offset + length` is below this. */
  const RANGE_LIMIT: nat := 50
  const MODULUS: nat := 255

  /** The two `UInt16` accumulators `sum1` and `sum2`. */
  datatype Sums = Sums(sum1: uint16, sum2: uint16)

  /** `(v & 0xFF) + (v >> 8)`. */
  function Fold(v: uint16): (r: uint16)
    ensures r <= 0x1FE
    ensures v <= 0x1FE ==> r <= 0xFF
  {
    v % 0x100 + v / 0x100
  }

  function FoldBoth(s: Sums): (r: Sums)
  {
    Sums(Fold(s.sum1), Fold(s.sum2))
  }

  /** One step of the inner loop, `sum1 += byte; sum2 += sum1;`, in `UInt16`
      arithmetic. */
  function Add(s: Sums, x: uint8): (r: Sums)
  {
    var a := Wrap16(s.sum1 + x);
    Sums(a, Wrap16(s.sum2 + a))
  }

  /** The inner `do … while` over the bytes `data[lo..hi]` of one chunk, in order. */
  function Accumulate(data: seq<uint8>, lo: nat, hi: nat, s: Sums): (r: Sums)
    requires lo <= hi <= |data|
    decreases hi - lo
  {
    if hi == lo then s
    else Add(Accumulate(data, lo, hi - 1, s), data[hi - 1])
  }

  /** The outer loop over `data[lo..hi]`: chunks of at most `CHUNK` bytes,
      each followed by a fold of both accumulators. */
  function Blocks(data: seq<uint8>, lo: nat, hi: nat, s: Sums): (r: Sums)
    requires lo <= hi <= |data|
    decreases hi - lo
  {
    if hi == lo then s
    else
      var n := if hi - lo > CHUNK then CHUNK else hi - lo;
      Blocks(data, lo + n, hi, FoldBoth(Accumulate(data, lo, lo + n, s)))
  }

  /** The checksum of `buffer[offset .. offset + length]`: the twice-folded
      `sum2` in the high byte and the twice-folded `sum1` in the low byte.
      The buffer must hold the range only when the range is below the
      limit: otherwise no byte is read. */
  function Checksum(buffer: seq<uint8>, offset: nat, length: nat): (r: uint16)
    requires offset + length < RANGE_LIMIT ==> offset + length <= |buffer|
    ensures offset + length >= RANGE_LIMIT ==> r == 0
  {
    if offset + length >= RANGE_LIMIT then 0
    else
      var sums := Blocks(buffer, offset, offset + length, Sums(SEED, SEED));
      BlocksBound(buffer, offset, offset + length, Sums(SEED, SEED));
      Fold(sums.sum2) * 0x100 + Fold(sums.sum1)
  }

  /** After the first chunk both accumulators hold at most 0x1FE. */
  lemma {:induction false} BlocksBound(data: seq<uint8>, lo: nat, hi: nat, s: Sums)
    requires lo <= hi <= |data|
    requires s.sum1 <= 0x1FE && s.sum2 <= 0x1FE
    ensures Blocks(data, lo, hi, s).sum1 <= 0x1FE && Blocks(data, lo, hi, s).sum2 <= 0x1FE
    decreases hi - lo
  {
    if hi > lo {
      var n := if hi - lo > CHUNK then CHUNK else hi - lo;
      BlocksBound(data, lo + n, hi, FoldBoth(Accumulate(data, lo, lo + n, s)));
    }
  }

  lemma BlocksStep(data: seq<uint8>, lo: nat, mid: nat, hi: nat, s: Sums, t: Sums, total: Sums)
    requires lo < mid <= hi <= |data|
    requires mid - lo == if hi - lo > CHUNK then CHUNK else hi - lo
    requires Blocks(data, lo, hi, s) == total
    requires Accumulate(data, lo, mid, s) == t
    ensures Blocks(data, mid, hi, Sums(Fold(t.sum1), Fold(t.sum2))) == total
  {
  }

  /** The inner `do { sum1 += buffer[offset + i]; sum2 += sum1; i++; }
      while (--tlen > 0)` of `t4_calc_check_sum`, over the `tlen` bytes from
      `buffer[at]` on; it is entered with `tlen >= 1`, so it runs as a
      `while` loop. */
  method AccumulateChunk(buffer: seq<uint8>, at: nat, tlen: nat, sum1: uint16, sum2: uint16)
    returns (a: uint16, b: uint16)
    requires at + tlen <= |buffer|
    ensures Sums(a, b) == Accumulate(buffer, at, at + tlen, Sums(sum1, sum2))
  {
    a, b := sum1, sum2;
    var i: nat := 0;
    while i < tlen
      invariant i <= tlen
      invariant Sums(a, b) == Accumulate(buffer, at, at + i, Sums(sum1, sum2))
    {
      a := Wrap16(a + buffer[at + i]);
      b := Wrap16(b + a);
      i := i + 1;
    }
  }

  /** The outer `while (length > 0)` loop of `t4_calc_check_sum`, with the
      fold after each chunk; `remaining` is the C code's `length`, which the
      loop counts down, and `i` the running index. */
  method SumChunks(buffer: seq<uint8>, offset: nat, length: nat) returns (sum1: uint16, sum2: uint16)
    requires offset + length <= |buffer|
    ensures sum1 <= 0x1FE && sum2 <= 0x1FE
    ensures Sums(sum1, sum2) == Blocks(buffer, offset, offset + length, Sums(SEED, SEED))
  {
    sum1, sum2 := SEED, SEED;
    var i: nat := 0;
    var remaining: nat := length;
    ghost var total := Blocks(buffer, offset, offset + length, Sums(SEED, SEED));
    while remaining > 0
      invariant i + remaining == length
      invariant sum1 <= 0x1FE && sum2 <= 0x1FE
      invariant Blocks(buffer, offset + i, offset + length, Sums(sum1, sum2)) == total
    {
      var tlen: nat := if remaining > CHUNK then CHUNK else remaining;
      remaining := remaining - tlen;
      var a, b := AccumulateChunk(buffer, offset + i, tlen, sum1, sum2);
      BlocksStep(buffer, offset + i, offset + i + tlen, offset + length, Sums(sum1, sum2), Sums(a, b), total);
      i := i + tlen;
      sum1 := Fold(a);
      sum2 := Fold(b);
    }
  }

  /** `t4_calc_check_sum(buffer, offset, length)`: the range guard, the
      chunked sums, the final fold and `sum2 << 8 | sum1`. */
  method CalcCheckSum(buffer: seq<uint8>, offset: nat, length: nat) returns (r: uint16)
    requires offset + length < RANGE_LIMIT ==> offset + length <= |buffer|
    ensures r == Checksum(buffer, offset, length)
  {
    if offset + length >= RANGE_LIMIT {
      return 0;
    }
    var sum1, sum2 := SumChunks(buffer, offset, length);
    sum1 := Fold(sum1);
    sum2 := Fold(sum2);
    r := ShlOr16(sum2, sum1);
    ShlOr16Bytes(sum2, sum1);
  }

  // ---------------------------------------------------------------------
  // Reference: the unbounded Fletcher sums.

  /** Unbounded running sums, no truncation and no folding. */
  datatype Totals = Totals(sum1: int, sum2: int)

  /** The Fletcher running sums over `data[lo..hi]` from the start values in `t`. */
  function Fletcher(data: seq<uint8>, lo: nat, hi: nat, t: Totals): Totals
    requires lo <= hi <= |data|
    decreases hi - lo
  {
    if hi == lo then t
    else
      var p := Fletcher(data, lo, hi - 1, t);
      Totals(p.sum1 + data[hi - 1], p.sum2 + p.sum1 + data[hi - 1])
  }

  /** One more byte of a Fletcher sum. */
  lemma FletcherNext(data: seq<uint8>, lo: nat, hi: nat, t: Totals, a: int, b: int)
    requires lo <= hi < |data| && Fletcher(data, lo, hi, t) == Totals(a, b)
    ensures Fletcher(data, lo, hi + 1, t) == Totals(a + data[hi], b + a + data[hi])
  {
  }

  /** The Fletcher-16 residues of `data[lo..hi]`, seeded as the T4 protocol
      seeds them: the checksum holds these modulo 255. */
  function FletcherSums(data: seq<uint8>, lo: nat, hi: nat): Totals
    requires lo <= hi <= |data|
  {
    Fletcher(data, lo, hi, Totals(SEED, SEED))
  }

  predicate Congruent(x: int, y: int)
  {
    (x - y) % MODULUS == 0
  }

  function Tri(k: nat): nat
  {
    if k == 0 then 0 else Tri(k - 1) + k
  }

  lemma {:induction false} TriMono(j: nat, k: nat)
    requires j <= k
    ensures Tri(j) <= Tri(k)
    decreases k
  {
    if j < k {
      TriMono(j, k - 1);
    }
  }

  /** Folding a byte carry preserves the value modulo 255. */
  lemma FoldCongruent(v: uint16)
    ensures Congruent(Fold(v), v)
  {
    var q := v / 0x100;
    assert v == 0x100 * q + v % 0x100;
    assert v - Fold(v) == MODULUS * q;
  }

  lemma CongruentTrans(x: int, y: int, z: int)
    requires Congruent(x, y) && Congruent(y, z)
    ensures Congruent(x, z)
  {
    assert x - z == (x - y) + (y - z);
  }

  lemma CongruentAdd(x: int, y: int, x': int, y': int)
    requires Congruent(x, x') && Congruent(y, y')
    ensures Congruent(x + y, x' + y')
  {
    assert (x + y) - (x' + y') == (x - x') + (y - y');
  }

  /** Start values congruent modulo 255 give sums congruent modulo 255. */
  lemma {:induction false} FletcherCongruent(data: seq<uint8>, lo: nat, hi: nat, t: Totals, u: Totals)
    requires lo <= hi <= |data|
    requires Congruent(t.sum1, u.sum1) && Congruent(t.sum2, u.sum2)
    ensures Congruent(Fletcher(data, lo, hi, t).sum1, Fletcher(data, lo, hi, u).sum1)
    ensures Congruent(Fletcher(data, lo, hi, t).sum2, Fletcher(data, lo, hi, u).sum2)
    decreases hi - lo
  {
    if hi > lo {
      FletcherCongruent(data, lo, hi - 1, t, u);
      var p := Fletcher(data, lo, hi - 1, t);
      var q := Fletcher(data, lo, hi - 1, u);
      var d := data[hi - 1];
      CongruentAdd(p.sum1, d, q.sum1, d);
      CongruentAdd(p.sum2, p.sum1 + d, q.sum2, q.sum1 + d);
    }
  }

  /** Running over `data[lo..mid]` and then over `data[mid..hi]` is running
      over `data[lo..hi]`. */
  lemma {:induction false} FletcherSplit(data: seq<uint8>, lo: nat, mid: nat, hi: nat, t: Totals)
    requires lo <= mid <= hi <= |data|
    ensures Fletcher(data, mid, hi, Fletcher(data, lo, mid, t)) == Fletcher(data, lo, hi, t)
    decreases hi - mid
  {
    if hi > mid {
      FletcherSplit(data, lo, mid, hi - 1, t);
    }
  }

  /** The unbounded sums stay within the triangular bound. */
  lemma {:induction false} FletcherBound(data: seq<uint8>, lo: nat, hi: nat, t: Totals)
    requires lo <= hi <= |data|
    requires t.sum1 >= 0 && t.sum2 >= 0
    ensures t.sum1 <= Fletcher(data, lo, hi, t).sum1 <= t.sum1 + 255 * (hi - lo)
    ensures t.sum2 <= Fletcher(data, lo, hi, t).sum2 <= t.sum2 + (hi - lo) * t.sum1 + 255 * Tri(hi - lo)
    decreases hi - lo
  {
    if hi > lo {
      FletcherBound(data, lo, hi - 1, t);
      var k := hi - 1 - lo;
      assert (k + 1) * t.sum1 == k * t.sum1 + t.sum1;
    }
  }

  lemma TriOfChunk()
    ensures Tri(CHUNK) == 210
  {
    assert Tri(5) == 15;
    assert Tri(10) == 55;
    assert Tri(15) == 120;
  }

  lemma ProductBound(k: nat, a: int)
    requires k <= CHUNK && 0 <= a <= 0x1FE
    ensures k * a <= CHUNK * 0x1FE
  {
    assert k * a <= CHUNK * a;
  }

  lemma ChunkNoWrapBound(k: nat, a: int, b: int)
    requires k <= CHUNK && 0 <= a <= 0x1FE && 0 <= b <= 0x1FE
    ensures b + k * a + 255 * Tri(k) < 0x1_0000
    ensures a + 255 * k < 0x1_0000
  {
    TriMono(k, CHUNK);
    TriOfChunk();
    ProductBound(k, a);
  }

  /** Within one chunk started from accumulators of at most 0x1FE, nothing
      wraps: the `UInt16` sums are the unbounded ones. */
  lemma {:induction false} AccumulateExact(data: seq<uint8>, lo: nat, hi: nat, s: Sums)
    requires lo <= hi <= |data| && hi - lo <= CHUNK
    requires s.sum1 <= 0x1FE && s.sum2 <= 0x1FE
    ensures var f := Fletcher(data, lo, hi, Totals(s.sum1, s.sum2));
            Accumulate(data, lo, hi, s).sum1 == f.sum1 && Accumulate(data, lo, hi, s).sum2 == f.sum2
    decreases hi - lo
  {
    if hi > lo {
      AccumulateExact(data, lo, hi - 1, s);
      FletcherBound(data, lo, hi, Totals(s.sum1, s.sum2));
      ChunkNoWrapBound(hi - lo, s.sum1, s.sum2);
    }
  }

  /** The chunked, folded `UInt16` sums are congruent modulo 255 to the
      unbounded Fletcher sums from the same start values. */
  lemma {:induction false} BlocksCongruent(data: seq<uint8>, lo: nat, hi: nat, s: Sums)
    requires lo <= hi <= |data|
    requires s.sum1 <= 0x1FE && s.sum2 <= 0x1FE
    ensures Congruent(Blocks(data, lo, hi, s).sum1, Fletcher(data, lo, hi, Totals(s.sum1, s.sum2)).sum1)
    ensures Congruent(Blocks(data, lo, hi, s).sum2, Fletcher(data, lo, hi, Totals(s.sum1, s.sum2)).sum2)
    decreases hi - lo
  {
    if hi > lo {
      var n := if hi - lo > CHUNK then CHUNK else hi - lo;
      var t := Totals(s.sum1, s.sum2);
      var a := Accumulate(data, lo, lo + n, s);
      var f := Fletcher(data, lo, lo + n, t);
      var folded := FoldBoth(a);
      var ft := Totals(folded.sum1, folded.sum2);
      assert Blocks(data, lo, hi, s) == Blocks(data, lo + n, hi, folded);
      AccumulateExact(data, lo, lo + n, s);
      FoldCongruent(a.sum1);
      FoldCongruent(a.sum2);
      FletcherCongruent(data, lo + n, hi, ft, f);
      FletcherSplit(data, lo, lo + n, hi, t);
      BlocksCongruent(data, lo + n, hi, folded);
      var b := Blocks(data, lo + n, hi, folded);
      CongruentTrans(b.sum1, Fletcher(data, lo + n, hi, ft).sum1, Fletcher(data, lo, hi, t).sum1);
      CongruentTrans(b.sum2, Fletcher(data, lo + n, hi, ft).sum2, Fletcher(data, lo, hi, t).sum2);
    }
  }

  lemma ByteParts(hi: int, lo: int)
    requires 0 <= hi < 0x100 && 0 <= lo < 0x100
    ensures (hi * 0x100 + lo) % 0x100 == lo && (hi * 0x100 + lo) / 0x100 == hi
  {
  }

  /** The representative in 1..255 of `x` modulo 255: a zero residue is
      written 255, as in ones' complement arithmetic. */
  function Residue(x: int): (r: int)
    ensures 1 <= r <= MODULUS
    ensures Congruent(r, x)
  {
    if x % MODULUS == 0 then MODULUS else x % MODULUS
  }

  /** A value in 1..255 is the representative of every value congruent to it. */
  lemma ResidueUnique(b: int, x: int)
    requires 1 <= b <= MODULUS && Congruent(b, x)
    ensures b == Residue(x)
  {
    assert b % MODULUS == x % MODULUS;
  }

  lemma FoldPositive(v: uint16)
    requires v >= 1
    ensures Fold(v) >= 1
  {
  }

  /** Seeded with non-zero accumulators, the folded sums never become zero. */
  lemma {:induction false} BlocksPositive(data: seq<uint8>, lo: nat, hi: nat, s: Sums)
    requires lo <= hi <= |data|
    requires 1 <= s.sum1 <= 0x1FE && 1 <= s.sum2 <= 0x1FE
    ensures Blocks(data, lo, hi, s).sum1 >= 1 && Blocks(data, lo, hi, s).sum2 >= 1
    decreases hi - lo
  {
    if hi > lo {
      var n := if hi - lo > CHUNK then CHUNK else hi - lo;
      var a := Accumulate(data, lo, lo + n, s);
      AccumulateExact(data, lo, lo + n, s);
      FletcherBound(data, lo, lo + n, Totals(s.sum1, s.sum2));
      FoldPositive(a.sum1);
      FoldPositive(a.sum2);
      BlocksPositive(data, lo + n, hi, FoldBoth(a));
    }
  }

  /** The checksum is the Fletcher-16 checksum of the range: its low byte is
      the residue of the first Fletcher sum modulo 255 and its high byte that
      of the second, each written in 1..255. */
  lemma ChecksumIsFletcher(buffer: seq<uint8>, offset: nat, length: nat)
    requires offset + length < RANGE_LIMIT && offset + length <= |buffer|
    ensures var f := FletcherSums(buffer, offset, offset + length);
            Checksum(buffer, offset, length) == Residue(f.sum2) * 0x100 + Residue(f.sum1)
  {
    var s := Blocks(buffer, offset, offset + length, Sums(SEED, SEED));
    var f := FletcherSums(buffer, offset, offset + length);
    BlocksBound(buffer, offset, offset + length, Sums(SEED, SEED));
    BlocksPositive(buffer, offset, offset + length, Sums(SEED, SEED));
    BlocksCongruent(buffer, offset, offset + length, Sums(SEED, SEED));
    FoldCongruent(s.sum1);
    FoldCongruent(s.sum2);
    FoldPositive(s.sum1);
    FoldPositive(s.sum2);
    CongruentTrans(Fold(s.sum1), s.sum1, f.sum1);
    CongruentTrans(Fold(s.sum2), s.sum2, f.sum2);
    ResidueUnique(Fold(s.sum1), f.sum1);
    ResidueUnique(Fold(s.sum2), f.sum2);
  }

  /** The bytes of the checksum, each in 1..255. */
  lemma ChecksumBytes(buffer: seq<uint8>, offset: nat, length: nat)
    requires offset + length < RANGE_LIMIT && offset + length <= |buffer|
    ensures var r := Checksum(buffer, offset, length);
            var f := FletcherSums(buffer, offset, offset + length);
            1 <= r % 0x100 <= 0xFF && 1 <= r / 0x100 <= 0xFF &&
            Congruent(r % 0x100, f.sum1) && Congruent(r / 0x100, f.sum2)
  {
    var f := FletcherSums(buffer, offset, offset + length);
    ChecksumIsFletcher(buffer, offset, length);
    ByteParts(Residue(f.sum2), Residue(f.sum1));
  }

  lemma {:induction false} FletcherOfZeros(data: seq<uint8>, lo: nat, hi: nat)
    requires lo <= hi <= |data|
    requires forall k :: lo <= k < hi ==> data[k] == 0
    ensures FletcherSums(data, lo, hi) == Totals(SEED, SEED * (hi - lo + 1))
    decreases hi - lo
  {
    if hi > lo {
      FletcherOfZeros(data, lo, hi - 1);
    }
  }

  /** A range of zero bytes, of any length below the limit, has checksum 0xFFFF:
      both Fletcher sums are multiples of 255. */
  lemma ChecksumOfZeros(buffer: seq<uint8>, offset: nat, length: nat)
    requires offset + length < RANGE_LIMIT && offset + length <= |buffer|
    requires forall k :: offset <= k < offset + length ==> buffer[k] == 0
    ensures Checksum(buffer, offset, length) == 0xFFFF
  {
    ChecksumIsFletcher(buffer, offset, length);
    FletcherOfZeros(buffer, offset, offset + length);
    var f := FletcherSums(buffer, offset, offset + length);
    ResidueOfSeedMultiple(1);
    ResidueOfSeedMultiple(length + 1);
    assert Residue(f.sum1) == 0xFF && Residue(f.sum2) == 0xFF;
  }

  /** Every multiple of the seed 0xFF is 0 modulo 255, written 255. */
  lemma ResidueOfSeedMultiple(m: nat)
    ensures Residue(SEED * m) == 0xFF
  {
    assert (SEED * m) % MODULUS == 0;
  }

  lemma {:induction false} AccumulateLocal(d: seq<uint8>, e: seq<uint8>, lo: nat, hi: nat, s: Sums)
    requires lo <= hi <= |d| && hi <= |e|
    requires forall k :: lo <= k < hi ==> d[k] == e[k]
    ensures Accumulate(d, lo, hi, s) == Accumulate(e, lo, hi, s)
    decreases hi - lo
  {
    if hi > lo {
      AccumulateLocal(d, e, lo, hi - 1, s);
    }
  }

  lemma {:induction false} BlocksLocal(d: seq<uint8>, e: seq<uint8>, lo: nat, hi: nat, s: Sums)
    requires lo <= hi <= |d| && hi <= |e|
    requires forall k :: lo <= k < hi ==> d[k] == e[k]
    ensures Blocks(d, lo, hi, s) == Blocks(e, lo, hi, s)
    decreases hi - lo
  {
    if hi > lo {
      var n := if hi - lo > CHUNK then CHUNK else hi - lo;
      AccumulateLocal(d, e, lo, lo + n, s);
      BlocksLocal(d, e, lo + n, hi, FoldBoth(Accumulate(d, lo, lo + n, s)));
    }
  }

  /** The checksum reads only the bytes of its range. */
  lemma ChecksumLocal(buffer: seq<uint8>, other: seq<uint8>, offset: nat, length: nat)
    requires offset + length <= |buffer| && offset + length <= |other|
    requires forall k :: offset <= k < offset + length ==> buffer[k] == other[k]
    ensures Checksum(buffer, offset, length) == Checksum(other, offset, length)
  {
    if offset + length < RANGE_LIMIT {
      BlocksLocal(buffer, other, offset, offset + length, Sums(SEED, SEED));
    }
  }
}
