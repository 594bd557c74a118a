/** Little-endian byte order: the `put_unaligned_le16/32` helpers of the
    driver, which store a value into a byte buffer least significant byte
    first, and the matching decoders. */
module LittleEndian {
  import opened MachineInts

  /** The bytes of a 16-bit value, least significant first. */
  function Le16Bytes(v: uint16): (s: seq<uint8>)
    ensures |s| == 2
  {
    [v % 0x100, v / 0x100]
  }

  /** The bytes of a 32-bit value, least significant first. */
  function Le32Bytes(v: uint32): (s: seq<uint8>)
    ensures |s| == 4
  {
    Le16Bytes(v % 0x1_0000) + Le16Bytes(v / 0x1_0000)
  }

  function DecodeLe16(s: seq<uint8>): (v: uint16)
    requires |s| == 2
  {
    s[0] as int + 0x100 * (s[1] as int)
  }

  function DecodeLe32(s: seq<uint8>): (v: uint32)
    requires |s| == 4
  {
    DecodeLe16(s[..2]) as int + 0x1_0000 * (DecodeLe16(s[2..]) as int)
  }

  lemma Le16RoundTrip(v: uint16)
    ensures DecodeLe16(Le16Bytes(v)) == v
  {
  }

  lemma Le16Injective(s: seq<uint8>)
    requires |s| == 2
    ensures Le16Bytes(DecodeLe16(s)) == s
  {
  }

  /** Decoding the four bytes written for `v` gives back `v`. */
  lemma Le32RoundTrip(v: uint32)
    ensures DecodeLe32(Le32Bytes(v)) == v
  {
    var s := Le32Bytes(v);
    assert s[..2] == Le16Bytes(v % 0x1_0000);
    assert s[2..] == Le16Bytes(v / 0x1_0000);
    Le16RoundTrip(v % 0x1_0000);
    Le16RoundTrip(v / 0x1_0000);
  }

  /** Every four bytes are the encoding of exactly one 32-bit value. */
  lemma Le32Injective(s: seq<uint8>)
    requires |s| == 4
    ensures Le32Bytes(DecodeLe32(s)) == s
  {
    var lo, hi := DecodeLe16(s[..2]), DecodeLe16(s[2..]);
    var v := DecodeLe32(s);
    assert v % 0x1_0000 == lo && v / 0x1_0000 == hi;
    Le16Injective(s[..2]);
    Le16Injective(s[2..]);
    assert s == s[..2] + s[2..];
  }

  /** The two stores of `__put_unaligned_le16` at position `at` of `s`. */
  function Store16(s: seq<uint8>, at: nat, v: uint16): (r: seq<uint8>)
    requires at + 2 <= |s|
    ensures |r| == |s|
  {
    s[at := v % 0x100][at + 1 := v / 0x100]
  }

  /** The stores of `__put_unaligned_le32`: the upper half at `at + 2`, then
      the lower half at `at`. */
  function Store32(s: seq<uint8>, at: nat, v: uint32): (r: seq<uint8>)
    requires at + 4 <= |s|
    ensures |r| == |s|
  {
    Store16(Store16(s, at + 2, v / 0x1_0000), at, v % 0x1_0000)
  }

  /** The 16-bit store puts `Le16Bytes(v)` at `at` and changes nothing else. */
  lemma Store16Bytes(s: seq<uint8>, at: nat, v: uint16)
    requires at + 2 <= |s|
    ensures Store16(s, at, v) == s[..at] + Le16Bytes(v) + s[at + 2..]
  {
  }

  /** The 32-bit store puts `Le32Bytes(v)` at `at` and changes nothing else,
      so the four bytes decode back to `v`. */
  lemma Store32Bytes(s: seq<uint8>, at: nat, v: uint32)
    requires at + 4 <= |s|
    ensures Store32(s, at, v) == s[..at] + Le32Bytes(v) + s[at + 4..]
    ensures DecodeLe32(Store32(s, at, v)[at..at + 4]) == v
  {
    var r := Store32(s, at, v);
    assert r[at..at + 4] == Le32Bytes(v);
    assert r == r[..at] + r[at..at + 4] + r[at + 4..];
    Le32RoundTrip(v);
  }

  /** `__put_unaligned_le16(val, p)`: `*p++ = val; *p++ = val >> 8;`, with
      `p` modelled as the position `at` in the buffer `p`. */
  method PutLe16(val: uint16, p: array<uint8>, at: nat)
    requires at + 2 <= p.Length
    modifies p
    ensures p[..] == Store16(old(p[..]), at, val)
  {
    p[at] := val % 0x100;
    p[at + 1] := val / 0x100;
  }

  /** `__put_unaligned_le32(val, p)`: the upper half `val >> 16` at `p + 2`,
      then the lower half, truncated to `uint16_t`, at `p`. */
  method PutLe32(val: uint32, p: array<uint8>, at: nat)
    requires at + 4 <= p.Length
    modifies p
    ensures p[..] == Store32(old(p[..]), at, val)
  {
    PutLe16(val / 0x1_0000, p, at + 2);
    PutLe16(val % 0x1_0000, p, at);
  }

  /** `put_unaligned_le32(val, p)`: the same store through an untyped pointer. */
  method PutUnalignedLe32(val: uint32, p: array<uint8>, at: nat)
    requires at + 4 <= p.Length
    modifies p
    ensures p[..] == Store32(old(p[..]), at, val)
  {
    PutLe32(val, p, at);
  }
}
