/** The five contact slots of the touchpad and how one input report updates
    them: the coordinate transforms, the palm-band validity test, the update
    of a valid slot, the hold-over of an invalid one, and the contact count.

    Each tracked quantity of a slot (x, y, button, tip switch) is a pair of a
    current and a last value. `Update(s, v)` makes `v` current and the old
    current last; this is the reading of the update operation of the
    multitouch helper library that the model assumes. */
module Transducers {
  import opened MachineInts
  import opened LittleEndian
  import opened T4Layout

  /** A current value and the one before it. */
  datatype Series = Series(value: uint32, last: uint32)

  function Update(s: Series, v: uint32): (r: Series)
    ensures r.value == v && r.last == s.value
  {
    Series(v, s.value)
  }

  /** The digitiser transducer kinds; the driver only reports fingers. */
  datatype TransducerType = Finger | Stylus

  /** One contact slot as the driver leaves it for the multitouch consumer. */
  datatype Transducer = Transducer(
    kind: TransducerType,
    id: int,
    secondaryId: int,
    isValid: bool,
    logicalMaxX: uint32,
    logicalMaxY: uint32,
    x: Series,
    y: Series,
    button: Series,
    tip: Series)

  /** A slot as it is created, before any report reached it. */
  function NewTransducer(kind: TransducerType): (t: Transducer)
    ensures t.kind == kind && !t.isValid
  {
    Transducer(kind, 0, 0, false, 0, 0, Series(0, 0), Series(0, 0), Series(0, 0), Series(0, 0))
  }

  /** The slot id every decoded slot carries. */
  const SLOT_ID: int := 9
  /** The pressure a contact inside the palm band reports. */
  const CONTACT_PRESSURE: uint32 := 62
  /** Raw Y is reflected about this value: `3060 - y + 255`. */
  const Y_REFLECT: int := 3315

  /** `hi << 8 | lo` for two bytes, after promotion to `int`: the two operands
      have no bit in common, so the result is `hi * 256 + lo`. */
  function JoinBytes(hi: uint8, lo: uint8): (v: uint16)
    ensures v == hi * 0x100 + lo
  {
    ShlOr16Bytes(hi, lo);
    ShlOr16(hi, lo)
  }

  /** The joined bytes are the little-endian value of `[lo, hi]`, the order
      in which the report stores them. */
  lemma JoinBytesIsLittleEndian(hi: uint8, lo: uint8)
    ensures JoinBytes(hi, lo) == DecodeLe16([lo, hi])
    ensures Le16Bytes(JoinBytes(hi, lo)) == [lo, hi]
  {
    Le16Injective([lo, hi]);
  }

  /** `y = 3060 - y + 255` in `unsigned int` arithmetic. */
  function InvertY(raw: uint32): (r: uint32)
  {
    Wrap32(Wrap32(3060 - raw) + 255)
  }

  /** Y is reflected about 3315 modulo 2^32: raw values up to 3315 map to
      `3315 - raw`, larger ones wrap around to the top of the range. */
  lemma InvertYReflects(raw: uint32)
    ensures InvertY(raw) == Wrap32(Y_REFLECT - raw)
    ensures raw <= Y_REFLECT ==> InvertY(raw) == Y_REFLECT - raw
    ensures raw > Y_REFLECT ==> InvertY(raw) == 0x1_0000_0000 + Y_REFLECT - raw
  {
    if raw <= 3060 {
      assert Wrap32(3060 - raw) == 3060 - raw;
    } else {
      assert Wrap32(3060 - raw) == 0x1_0000_0000 + 3060 - raw;
    }
  }

  /** Raw 0 becomes 3315 and raw 3315 becomes 0. */
  lemma InvertYCorners()
    ensures InvertY(0) == 3315 && InvertY(3315) == 0
  {
    InvertYReflects(0);
    InvertYReflects(3315);
  }

  /** Reflecting twice gives the raw value back, so no two raw values share
      a transformed one. */
  lemma InvertYInvolution(raw: uint32)
    ensures InvertY(InvertY(raw)) == raw
  {
    InvertYReflects(raw);
    InvertYReflects(InvertY(raw));
  }

  /** `z = (palm < 0x80 && palm > 0) * 62`. */
  function Pressure(palm: uint8): (z: uint32)
    ensures z == 0 || z == CONTACT_PRESSURE
  {
    (if palm < 0x80 && palm > 0 then 1 else 0) * CONTACT_PRESSURE
  }

  /** `bool contactValid = z`. */
  predicate ContactValid(palm: uint8)
  {
    Pressure(palm) != 0
  }

  /** A contact is valid exactly when its palm byte lies in 1..0x7F: 0 and
      every value from 0x80 on are rejected. */
  lemma ValidBand(palm: uint8)
    ensures ContactValid(palm) <==> 0 < palm < 0x80
    ensures ContactValid(palm) <==> Pressure(palm) == CONTACT_PRESSURE
  {
  }

  /** What one report does to slot `i`: the common fields, then either the
      new contact or the hold-over of the last coordinates. */
  function DecodeSlot(t: Transducer, c: ContactData, button: uint8, i: int, maxX: uint32, maxY: uint32)
    : (r: Transducer)
  {
    var t := t.(kind := Finger, logicalMaxX := maxX, logicalMaxY := maxY, id := SLOT_ID);
    if ContactValid(c.palm) then
      t.(isValid := true,
         x := Update(t.x, JoinBytes(c.xHi, c.xLo)),
         y := Update(t.y, InvertY(JoinBytes(c.yHi, c.yLo))),
         button := Update(t.button, button),
         tip := Update(t.tip, 1),
         secondaryId := i)
    else
      t.(isValid := false,
         secondaryId := i,
         x := Update(t.x, t.x.last),
         y := Update(t.y, t.y.last),
         button := Update(t.button, 0),
         tip := Update(t.tip, 0))
  }

  /** Every decoded slot is a finger with id 9, secondary id `i`, the
      consumer's logical extents, and is valid exactly when its palm byte is
      in the band. */
  lemma DecodeSlotCommon(t: Transducer, c: ContactData, button: uint8, i: int, maxX: uint32, maxY: uint32)
    ensures var r := DecodeSlot(t, c, button, i, maxX, maxY);
            r.kind == Finger && r.id == SLOT_ID && r.secondaryId == i &&
            r.logicalMaxX == maxX && r.logicalMaxY == maxY &&
            (r.isValid <==> 0 < c.palm < 0x80)
  {
    ValidBand(c.palm);
  }

  /** A valid contact records `x_hi * 256 + x_lo`, the reflected Y, the
      report's button byte and tip 1; what was current becomes last. */
  lemma DecodeValidSlot(t: Transducer, c: ContactData, button: uint8, i: int, maxX: uint32, maxY: uint32)
    requires 0 < c.palm < 0x80
    ensures var r := DecodeSlot(t, c, button, i, maxX, maxY);
            r.x == Series(c.xHi * 0x100 + c.xLo, t.x.value) &&
            r.y == Series(Wrap32(Y_REFLECT - (c.yHi * 0x100 + c.yLo)), t.y.value) &&
            r.button == Series(button, t.button.value) &&
            r.tip == Series(1, t.tip.value)
  {
    ValidBand(c.palm);
    InvertYReflects(JoinBytes(c.yHi, c.yLo));
  }

  /** An invalid contact re-issues the slot's stored last coordinates instead of zeroing them
      and reports button 0 and tip 0, whatever the report's bytes. */
  lemma DecodeInvalidSlot(t: Transducer, c: ContactData, button: uint8, i: int, maxX: uint32, maxY: uint32)
    requires c.palm == 0 || c.palm >= 0x80
    ensures var r := DecodeSlot(t, c, button, i, maxX, maxY);
            r.x == Series(t.x.last, t.x.value) &&
            r.y == Series(t.y.last, t.y.value) &&
            r.button == Series(0, t.button.value) &&
            r.tip == Series(0, t.tip.value)
  {
    ValidBand(c.palm);
  }

  /** The re-issued value swaps current and last, so two invalid reports in a
      row give a slot its coordinates back as they were. */
  lemma HoldOverTwice(t: Transducer, c1: ContactData, c2: ContactData, b1: uint8, b2: uint8,
                      i: int, maxX: uint32, maxY: uint32)
    requires !ContactValid(c1.palm) && !ContactValid(c2.palm)
    ensures var r := DecodeSlot(DecodeSlot(t, c1, b1, i, maxX, maxY), c2, b2, i, maxX, maxY);
            r.x == t.x && r.y == t.y
  {
  }

  /** After a valid report, an invalid one re-issues the coordinate that was
      current before the valid report, not the one the valid report set. */
  lemma HoldOverAfterContact(t: Transducer, c1: ContactData, c2: ContactData, b1: uint8, b2: uint8,
                             i: int, maxX: uint32, maxY: uint32)
    requires ContactValid(c1.palm) && !ContactValid(c2.palm)
    ensures var r := DecodeSlot(DecodeSlot(t, c1, b1, i, maxX, maxY), c2, b2, i, maxX, maxY);
            r.x == Series(t.x.value, JoinBytes(c1.xHi, c1.xLo)) &&
            r.y == Series(t.y.value, InvertY(JoinBytes(c1.yHi, c1.yLo)))
  {
  }

  /** The number of contacts in `cs` that pass the validity test. */
  function ValidCount(cs: seq<ContactData>): (n: nat)
    ensures n <= |cs|
  {
    if cs == [] then 0
    else ValidCount(cs[..|cs| - 1]) + (if ContactValid(cs[|cs| - 1].palm) then 1 else 0)
  }

  function ValidIndices(cs: seq<ContactData>): set<int>
  {
    set i | 0 <= i < |cs| && ContactValid(cs[i].palm)
  }

  /** The contact count is the number of slot indices whose contact is valid. */
  lemma {:induction false} ValidCountIsCardinality(cs: seq<ContactData>)
    ensures ValidCount(cs) == |ValidIndices(cs)|
  {
    if cs != [] {
      var n := |cs| - 1;
      var p := cs[..n];
      ValidCountIsCardinality(p);
      if ContactValid(cs[n].palm) {
        assert ValidIndices(cs) == ValidIndices(p) + {n};
      } else {
        assert ValidIndices(cs) == ValidIndices(p);
      }
    }
  }

  /** No valid contact gives count 0; all valid gives the number of slots. */
  lemma {:induction false} ValidCountExtremes(cs: seq<ContactData>)
    ensures (forall k :: 0 <= k < |cs| ==> !ContactValid(cs[k].palm)) ==> ValidCount(cs) == 0
    ensures (forall k :: 0 <= k < |cs| ==> ContactValid(cs[k].palm)) ==> ValidCount(cs) == |cs|
  {
    if cs != [] {
      var p := cs[..|cs| - 1];
      ValidCountExtremes(p);
      assert forall k :: 0 <= k < |p| ==> p[k] == cs[k];
    }
  }

  /** Read straight off the 51 report bytes: the contact count is the number
      of slots `i` whose palm byte, at offset 2 + 5i, lies in 1..0x7F. */
  lemma ContactCountFromBytes(b: seq<uint8>)
    requires |b| == INPUT_REPORT_LEN
    ensures ValidCount(ParseReport(b).contact) == |set i | 0 <= i < CONTACT_RECORDS && 0 < b[2 + 5 * i] < 0x80|
    ensures ValidCount(ParseReport(b).contact) <= MAX_TOUCHES
  {
    var cs := ParseReport(b).contact;
    ValidCountIsCardinality(cs);
    forall i | 0 <= i < CONTACT_RECORDS
      ensures ContactValid(cs[i].palm) <==> 0 < b[2 + 5 * i] < 0x80
    {
      ContactOffsets(b, i);
      ValidBand(cs[i].palm);
    }
    assert ValidIndices(cs) == set i | 0 <= i < CONTACT_RECORDS && 0 < b[2 + 5 * i] < 0x80;
  }

  /** Extending the counted prefix by one contact. */
  lemma ValidCountStep(cs: seq<ContactData>, i: nat)
    requires i < |cs|
    ensures ValidCount(cs[..i + 1]) == ValidCount(cs[..i]) + (if ContactValid(cs[i].palm) then 1 else 0)
  {
    assert cs[..i + 1][..i] == cs[..i];
  }

  /** The slots after the first `n` of them are decoded from the report. */
  function DecodePrefix(ts: seq<Transducer>, r: InputReport, n: nat, maxX: uint32, maxY: uint32)
    : (us: seq<Transducer>)
    requires WellFormed(r) && |ts| == CONTACT_RECORDS
    ensures |us| == |ts|
  {
    seq(|ts|, k requires 0 <= k < |ts| =>
      if k < n then DecodeSlot(ts[k], r.contact[k], r.button, k, maxX, maxY) else ts[k])
  }

  /** All five slots decoded from the report. */
  function DecodeAll(ts: seq<Transducer>, r: InputReport, maxX: uint32, maxY: uint32): (us: seq<Transducer>)
    requires WellFormed(r) && |ts| == CONTACT_RECORDS
    ensures |us| == CONTACT_RECORDS
  {
    DecodePrefix(ts, r, CONTACT_RECORDS, maxX, maxY)
  }

  lemma DecodePrefixZero(ts: seq<Transducer>, r: InputReport, maxX: uint32, maxY: uint32)
    requires WellFormed(r) && |ts| == CONTACT_RECORDS
    ensures DecodePrefix(ts, r, 0, maxX, maxY) == ts
  {
  }

  lemma DecodePrefixStep(ts: seq<Transducer>, r: InputReport, n: nat, maxX: uint32, maxY: uint32)
    requires WellFormed(r) && |ts| == CONTACT_RECORDS && n < CONTACT_RECORDS
    ensures DecodePrefix(ts, r, n, maxX, maxY)[n] == ts[n]
    ensures DecodePrefix(ts, r, n, maxX, maxY)[n := DecodeSlot(ts[n], r.contact[n], r.button, n, maxX, maxY)]
         == DecodePrefix(ts, r, n + 1, maxX, maxY)
  {
  }

  /** Slot `k` of the decoded set depends only on slot `k` before, contact
      `k` and the button byte, and the valid slots of the decoded set are
      exactly the valid contacts of the report. */
  lemma DecodeAllSlots(ts: seq<Transducer>, r: InputReport, maxX: uint32, maxY: uint32)
    requires WellFormed(r) && |ts| == CONTACT_RECORDS
    ensures forall k :: 0 <= k < CONTACT_RECORDS ==>
      DecodeAll(ts, r, maxX, maxY)[k] == DecodeSlot(ts[k], r.contact[k], r.button, k, maxX, maxY)
    ensures forall k :: 0 <= k < CONTACT_RECORDS ==>
      (DecodeAll(ts, r, maxX, maxY)[k].isValid <==> ContactValid(r.contact[k].palm))
  {
  }
}
