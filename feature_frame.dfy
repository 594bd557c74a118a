/** The register-write feature frame that `enterPrecisionTouchpadMode` sends
    to put the touchpad into absolute (precision touchpad) mode: a zeroed
    51-byte buffer holding the feature report id, the write command, the
    register address in little-endian order, a payload length of 1, the
    value, and the checksum of bytes 1..8 in little-endian order. */
module FeatureFrame {
  import opened MachineInts
  import opened LittleEndian
  import opened T4Layout
  import opened T4Checksum

  const CHECKSUM_OFFSET: nat := 1
  const CHECKSUM_LENGTH: nat := 8

  function Zeros(n: nat): (s: seq<uint8>)
    ensures |s| == n && forall k :: 0 <= k < n ==> s[k] == 0
  {
    seq(n, _ => 0)
  }

  /** Bytes 0..8: report id, command, 32-bit address, payload length 1 (two
      bytes), value. */
  function WriteHead(address: uint32, value: uint8): (s: seq<uint8>)
    ensures |s| == 9
  {
    [FEATURE_REPORT_ID, CMD_REGISTER_WRITE] + Le32Bytes(address) + [1, 0, value]
  }

  /** The whole frame: the head, the checksum of bytes 1..8, little-endian,
      and zeros up to `FEATURE_REPORT_LEN`. */
  function WriteFrame(address: uint32, value: uint8): (f: seq<uint8>)
    ensures |f| == FEATURE_REPORT_LEN
  {
    var head := WriteHead(address, value);
    head + Le16Bytes(Checksum(head, CHECKSUM_OFFSET, CHECKSUM_LENGTH)) + Zeros(FEATURE_REPORT_LEN - 11)
  }

  /** The stores of `enterPrecisionTouchpadMode` before the checksum, in the
      order the C code makes them, into a zeroed buffer. */
  function HeadStores(address: uint32, value: uint8): (b: seq<uint8>)
    ensures |b| == FEATURE_REPORT_LEN
  {
    var z := Zeros(FEATURE_REPORT_LEN)[0 := FEATURE_REPORT_ID][1 := CMD_REGISTER_WRITE][8 := value];
    Store32(z, 2, address)[6 := 1][7 := 0]
  }

  lemma HeadStoresLayout(address: uint32, value: uint8)
    ensures HeadStores(address, value)[..9] == WriteHead(address, value)
    ensures forall k :: 9 <= k < FEATURE_REPORT_LEN ==> HeadStores(address, value)[k] == 0
  {
    var z := Zeros(FEATURE_REPORT_LEN)[0 := FEATURE_REPORT_ID][1 := CMD_REGISTER_WRITE][8 := value];
    Store32Bytes(z, 2, address);
  }

  /** With the checksum of the head stored after it, the buffer is the frame. */
  lemma FrameStores(address: uint32, value: uint8, checkSum: uint16)
    requires checkSum == Checksum(WriteHead(address, value), CHECKSUM_OFFSET, CHECKSUM_LENGTH)
    ensures HeadStores(address, value)[9 := checkSum % 0x100][10 := checkSum / 0x100][11 := 0]
         == WriteFrame(address, value)
  {
    HeadStoresLayout(address, value);
    ChecksumAfterHead(HeadStores(address, value), WriteHead(address, value), checkSum);
  }

  /** A 51-byte buffer holding a head and zeros after it becomes the frame
      once the checksum bytes and a zero are stored at 9, 10 and 11. */
  lemma ChecksumAfterHead(b: seq<uint8>, head: seq<uint8>, checkSum: uint16)
    requires |b| == FEATURE_REPORT_LEN && |head| == 9 && b[..9] == head
    requires forall k :: 9 <= k < FEATURE_REPORT_LEN ==> b[k] == 0
    ensures b[9 := checkSum % 0x100][10 := checkSum / 0x100][11 := 0]
         == head + Le16Bytes(checkSum) + Zeros(FEATURE_REPORT_LEN - 11)
  {
    var f := b[9 := checkSum % 0x100][10 := checkSum / 0x100][11 := 0];
    var g := head + Le16Bytes(checkSum) + Zeros(FEATURE_REPORT_LEN - 11);
    assert |f| == |g|;
    forall k | 0 <= k < |f|
      ensures f[k] == g[k]
    {
      if k < 9 {
        assert b[k] == b[..9][k];
      }
    }
  }

  /** The stores of `enterPrecisionTouchpadMode` before the checksum. */
  method StoreHead(buffer: array<uint8>, address: uint32, value: uint8)
    requires buffer[..] == Zeros(FEATURE_REPORT_LEN)
    modifies buffer
    ensures buffer[..] == HeadStores(address, value)
  {
    buffer[0] := FEATURE_REPORT_ID;
    buffer[1] := CMD_REGISTER_WRITE;
    buffer[8] := value;
    PutUnalignedLe32(address, buffer, 2);
    buffer[6] := 1;
    buffer[7] := 0;
  }

  /** `t4_calc_check_sum(buffer, 1, 8)` on a buffer whose first nine bytes
      are `head`. */
  method HeadChecksum(b: seq<uint8>, ghost head: seq<uint8>) returns (checkSum: uint16)
    requires |b| == FEATURE_REPORT_LEN && |head| == 9 && b[..9] == head
    ensures checkSum == Checksum(head, CHECKSUM_OFFSET, CHECKSUM_LENGTH)
  {
    forall k | CHECKSUM_OFFSET <= k < CHECKSUM_OFFSET + CHECKSUM_LENGTH
      ensures b[k] == head[k]
    {
      assert b[..9][k] == head[k];
    }
    ChecksumLocal(b, head, CHECKSUM_OFFSET, CHECKSUM_LENGTH);
    checkSum := CalcCheckSum(b, CHECKSUM_OFFSET, CHECKSUM_LENGTH);
  }

  /** The checksum stored little-endian at 9 and 10, and the zero at 11,
      into a buffer that holds a head followed by zeros. */
  method StoreChecksum(buffer: array<uint8>, ghost head: seq<uint8>, checkSum: uint16)
    requires buffer.Length == FEATURE_REPORT_LEN && |head| == 9 && buffer[..9] == head
    requires forall k :: 9 <= k < FEATURE_REPORT_LEN ==> buffer[k] == 0
    modifies buffer
    ensures buffer[..] == head + Le16Bytes(checkSum) + Zeros(FEATURE_REPORT_LEN - 11)
  {
    ghost var before := buffer[..];
    buffer[9] := checkSum % 0x100;
    buffer[10] := checkSum / 0x100;
    buffer[11] := 0;
    ChecksumAfterHead(before, head, checkSum);
  }

  /** The buffer construction of `enterPrecisionTouchpadMode`, in the order
      the C code writes it, into a zero-initialised array; the register and
      the value it writes are parameters here. */
  method BuildWriteFrame(address: uint32, value: uint8) returns (frame: seq<uint8>)
    ensures frame == WriteFrame(address, value)
  {
    var buffer := new uint8[FEATURE_REPORT_LEN](_ => 0);
    assert buffer[..] == Zeros(FEATURE_REPORT_LEN);
    StoreHead(buffer, address, value);
    HeadStoresLayout(address, value);
    var checkSum := HeadChecksum(buffer[..], WriteHead(address, value));
    StoreChecksum(buffer, WriteHead(address, value), checkSum);
    frame := buffer[..];
  }

  /** The frame `enterPrecisionTouchpadMode` builds: register
      `T4_PRM_FEED_CONFIG_1` gets `T4_I2C_ABS`. */
  method BuildAbsoluteModeFrame() returns (frame: seq<uint8>)
    ensures frame == ABS_MODE_FRAME
  {
    frame := BuildWriteFrame(PRM_FEED_CONFIG_1, I2C_ABS);
    AbsoluteModeFrame();
  }

  lemma WriteFrameParts(address: uint32, value: uint8)
    ensures var f := WriteFrame(address, value);
            var head := WriteHead(address, value);
            f[..9] == head &&
            f[9..11] == Le16Bytes(Checksum(head, CHECKSUM_OFFSET, CHECKSUM_LENGTH)) &&
            forall k :: 11 <= k < FEATURE_REPORT_LEN ==> f[k] == 0
  {
  }

  /** Every write frame carries its fields at their offsets: the id, the
      command, the address (decoding bytes 2..5 little-endian gives it
      back), the payload length 1 and the value. */
  lemma WriteFrameFields(address: uint32, value: uint8)
    ensures var f := WriteFrame(address, value);
            f[0] == FEATURE_REPORT_ID && f[1] == CMD_REGISTER_WRITE &&
            DecodeLe32(f[2..6]) == address &&
            f[6] == 1 && f[7] == 0 && f[8] == value
  {
    var f := WriteFrame(address, value);
    var head := WriteHead(address, value);
    WriteFrameParts(address, value);
    assert f[2..6] == head[2..6];
    assert head[2..6] == Le32Bytes(address);
    Le32RoundTrip(address);
  }

  /** Recomputing the checksum over bytes 1..8 of a frame reproduces the
      little-endian checksum it carries in bytes 9..10; bytes 11 on are zero. */
  lemma WriteFrameChecksum(address: uint32, value: uint8)
    ensures var f := WriteFrame(address, value);
            DecodeLe16(f[9..11]) == Checksum(f, CHECKSUM_OFFSET, CHECKSUM_LENGTH) &&
            forall k :: 11 <= k < FEATURE_REPORT_LEN ==> f[k] == 0
  {
    var f := WriteFrame(address, value);
    var head := WriteHead(address, value);
    WriteFrameParts(address, value);
    var c := Checksum(head, CHECKSUM_OFFSET, CHECKSUM_LENGTH);
    Le16RoundTrip(c);
    ChecksumLocal(f, head, CHECKSUM_OFFSET, CHECKSUM_LENGTH);
  }

  /** The head that switches the touchpad to absolute mode: register 0xC2C4
      gets the value 0x78. */
  lemma AbsoluteModeHead()
    ensures WriteHead(PRM_FEED_CONFIG_1, I2C_ABS) == ABS_MODE_HEAD
  {
  }

  const ABS_MODE_HEAD: seq<uint8> := [0x07, 0x07, 0xC4, 0xC2, 0x00, 0x00, 0x01, 0x00, 0x78]

  /** Over bytes 07 C4 C2 00 00 01 00 78 at offsets 1..8 the unbounded
      sums grow to 773 and 5010. */
  lemma FletcherOfAbsoluteModeBytes(b: seq<uint8>)
    requires |b| == 9 && b[1] == 0x07 && b[2] == 0xC4 && b[3] == 0xC2 && b[4] == 0x00
    requires b[5] == 0x00 && b[6] == 0x01 && b[7] == 0x00 && b[8] == 0x78
    ensures FletcherSums(b, CHECKSUM_OFFSET, CHECKSUM_OFFSET + CHECKSUM_LENGTH) == Totals(773, 5010)
  {
    var t := Totals(SEED, SEED);
    FletcherNext(b, 1, 1, t, 255, 255);
    FletcherNext(b, 1, 2, t, 262, 517);
    FletcherNext(b, 1, 3, t, 458, 975);
    FletcherNext(b, 1, 4, t, 652, 1627);
    FletcherNext(b, 1, 5, t, 652, 2279);
    FletcherNext(b, 1, 6, t, 652, 2931);
    FletcherNext(b, 1, 7, t, 653, 3584);
    FletcherNext(b, 1, 8, t, 653, 4237);
  }

  /** Those sums have residues 0x08 and 0xA5, so the checksum is 0xA508. */
  lemma ChecksumOfAbsoluteModeBytes(b: seq<uint8>)
    requires |b| == 9 && b[1] == 0x07 && b[2] == 0xC4 && b[3] == 0xC2 && b[4] == 0x00
    requires b[5] == 0x00 && b[6] == 0x01 && b[7] == 0x00 && b[8] == 0x78
    ensures Checksum(b, CHECKSUM_OFFSET, CHECKSUM_LENGTH) == 0xA508
  {
    FletcherOfAbsoluteModeBytes(b);
    ChecksumIsFletcher(b, CHECKSUM_OFFSET, CHECKSUM_LENGTH);
    assert Residue(773) == 0x08 && Residue(5010) == 0xA5;
  }

  /** The checksum of the absolute-mode head. */
  lemma AbsoluteModeChecksum()
    ensures Checksum(WriteHead(PRM_FEED_CONFIG_1, I2C_ABS), CHECKSUM_OFFSET, CHECKSUM_LENGTH) == 0xA508
  {
    AbsoluteModeHead();
    ChecksumOfAbsoluteModeBytes(WriteHead(PRM_FEED_CONFIG_1, I2C_ABS));
  }

  /** The frame that switches the touchpad to absolute mode. */
  const ABS_MODE_FRAME: seq<uint8> := ABS_MODE_HEAD + [0x08, 0xA5] + Zeros(FEATURE_REPORT_LEN - 11)

  /** The frame the driver sends is 07 07 C4 C2 00 00 01 00 78 08 A5
      followed by zeros. */
  lemma AbsoluteModeFrame()
    ensures WriteFrame(PRM_FEED_CONFIG_1, I2C_ABS) == ABS_MODE_FRAME
  {
    AbsoluteModeHead();
    AbsoluteModeChecksum();
  }
}
