/** The protocol constants of the Alps T4 touchpad and the packed layout of
    its 51-byte input report (`struct t4_input_report`), as a datatype with
    a parser from bytes and a serializer back to bytes. */
module T4Layout {
  import opened MachineInts
  import opened LittleEndian

  const HID_PRODUCT_ID_T4_USB: uint16 := 0x1216

  const FEATURE_REPORT_ID: uint8 := 0x07
  const CMD_REGISTER_READ: uint8 := 0x08
  const CMD_REGISTER_WRITE: uint8 := 0x07
  const INPUT_REPORT_ID: uint8 := 0x09

  /** Feed-configuration register and the value selecting absolute reports. */
  const PRM_FEED_CONFIG_1: uint32 := 0xC2C4
  const I2C_ABS: uint8 := 0x78

  const COUNT_PER_ELECTRODE: nat := 256
  const MAX_TOUCHES: nat := 5

  /** `sizeof(struct t4_contact_data)` and the length of the `contact` array. */
  const CONTACT_SIZE: nat := 5
  const CONTACT_RECORDS: nat := 5
  /** Length of each of the per-contact byte arrays `track`, `zx`, `zy`, `palmTime`. */
  const AUX_LEN: nat := 5

  /** The members of `struct t4_input_report`, in declaration order. */
  datatype Field =
    | ReportIdField | NumContactsField | ContactField | ButtonField | TrackField
    | ZxField | ZyField | PalmTimeField | KilroyField | TimeStampField

  const FIELDS: seq<Field> :=
    [ReportIdField, NumContactsField, ContactField, ButtonField, TrackField,
     ZxField, ZyField, PalmTimeField, KilroyField, TimeStampField]

  function FieldSize(f: Field): nat
  {
    match f
    case ReportIdField => 1
    case NumContactsField => 1
    case ContactField => CONTACT_RECORDS * CONTACT_SIZE
    case ButtonField => 1
    case TrackField => AUX_LEN
    case ZxField => AUX_LEN
    case ZyField => AUX_LEN
    case PalmTimeField => AUX_LEN
    case KilroyField => 1
    case TimeStampField => 2
  }

  /** Size of a packed sequence of fields: no padding between members. */
  function PackedSize(fs: seq<Field>): nat
  {
    if fs == [] then 0 else PackedSize(fs[..|fs| - 1]) + FieldSize(fs[|fs| - 1])
  }

  function FieldIndex(f: Field): (k: nat)
    ensures k < |FIELDS| && FIELDS[k] == f
  {
    match f
    case ReportIdField => 0
    case NumContactsField => 1
    case ContactField => 2
    case ButtonField => 3
    case TrackField => 4
    case ZxField => 5
    case ZyField => 6
    case PalmTimeField => 7
    case KilroyField => 8
    case TimeStampField => 9
  }

  /** Byte offset of a member: the packed size of the members before it. */
  function OffsetOf(f: Field): nat
  {
    PackedSize(FIELDS[..FieldIndex(f)])
  }

  /** `T4_INPUT_REPORT_LEN`, i.e. `sizeof(struct t4_input_report)`; lemma
      `Layout` shows that it is the packed size of the members. */
  const INPUT_REPORT_LEN: nat := 51
  /** `T4_FEATURE_REPORT_LEN` is defined as the input report's size. */
  const FEATURE_REPORT_LEN: nat := INPUT_REPORT_LEN

  /** The packed layout: 1+1+25+1+5+5+5+5+1+2 = 51 bytes, and where each member starts. */
  lemma Layout()
    ensures PackedSize(FIELDS) == INPUT_REPORT_LEN == FEATURE_REPORT_LEN
    ensures OffsetOf(ReportIdField) == 0 && OffsetOf(NumContactsField) == 1
    ensures OffsetOf(ContactField) == 2 && OffsetOf(ButtonField) == 27
    ensures OffsetOf(TrackField) == 28 && OffsetOf(ZxField) == 33
    ensures OffsetOf(ZyField) == 38 && OffsetOf(PalmTimeField) == 43
    ensures OffsetOf(KilroyField) == 48 && OffsetOf(TimeStampField) == 49
  {
    var fs := FIELDS;
    assert PackedSize(fs[..0]) == 0;
    assert fs[..1][..0] == fs[..0];
    assert PackedSize(fs[..1]) == 1;
    assert fs[..2][..1] == fs[..1];
    assert PackedSize(fs[..2]) == 2;
    assert fs[..3][..2] == fs[..2];
    assert PackedSize(fs[..3]) == 27;
    assert fs[..4][..3] == fs[..3];
    assert PackedSize(fs[..4]) == 28;
    assert fs[..5][..4] == fs[..4];
    assert PackedSize(fs[..5]) == 33;
    assert fs[..6][..5] == fs[..5];
    assert PackedSize(fs[..6]) == 38;
    assert fs[..7][..6] == fs[..6];
    assert PackedSize(fs[..7]) == 43;
    assert fs[..8][..7] == fs[..7];
    assert PackedSize(fs[..8]) == 48;
    assert fs[..9][..8] == fs[..8];
    assert PackedSize(fs[..9]) == 49;
    assert fs[..10][..9] == fs[..9];
    assert PackedSize(fs[..10]) == 51;
    assert fs[..10] == fs;
  }

  /** `struct t4_contact_data`. */
  datatype ContactData = ContactData(palm: uint8, xLo: uint8, xHi: uint8, yLo: uint8, yHi: uint8)

  /** `struct t4_input_report`; `timeStamp` is a `UInt16` in host (little-endian) order. */
  datatype InputReport = InputReport(
    reportId: uint8,
    numContacts: uint8,
    contact: seq<ContactData>,
    button: uint8,
    track: seq<uint8>,
    zx: seq<uint8>,
    zy: seq<uint8>,
    palmTime: seq<uint8>,
    kilroy: uint8,
    timeStamp: uint16)

  /** The array members have their declared lengths. */
  predicate WellFormed(r: InputReport)
  {
    |r.contact| == CONTACT_RECORDS && |r.track| == AUX_LEN && |r.zx| == AUX_LEN &&
    |r.zy| == AUX_LEN && |r.palmTime| == AUX_LEN
  }

  function ContactBytes(c: ContactData): (s: seq<uint8>)
    ensures |s| == CONTACT_SIZE
  {
    [c.palm, c.xLo, c.xHi, c.yLo, c.yHi]
  }

  function ParseContacts(s: seq<uint8>): (cs: seq<ContactData>)
    requires |s| % CONTACT_SIZE == 0
    ensures |cs| == |s| / CONTACT_SIZE
  {
    if |s| == 0 then []
    else [ContactData(s[0], s[1], s[2], s[3], s[4])] + ParseContacts(s[CONTACT_SIZE..])
  }

  function SerializeContacts(cs: seq<ContactData>): (s: seq<uint8>)
    ensures |s| == CONTACT_SIZE * |cs|
  {
    if cs == [] then [] else ContactBytes(cs[0]) + SerializeContacts(cs[1..])
  }

  /** The bytes of one member inside a 51-byte report. */
  function Member(b: seq<uint8>, f: Field): (s: seq<uint8>)
    requires |b| == INPUT_REPORT_LEN
    ensures |s| == FieldSize(f)
  {
    Layout();
    assert FieldIndex(f) <= 9;
    b[OffsetOf(f)..OffsetOf(f) + FieldSize(f)]
  }

  /** Reading the 51 bytes of a report into the packed struct. */
  function ParseReport(b: seq<uint8>): (r: InputReport)
    requires |b| == INPUT_REPORT_LEN
    ensures WellFormed(r)
  {
    InputReport(
      Member(b, ReportIdField)[0],
      Member(b, NumContactsField)[0],
      ParseContacts(Member(b, ContactField)),
      Member(b, ButtonField)[0],
      Member(b, TrackField),
      Member(b, ZxField),
      Member(b, ZyField),
      Member(b, PalmTimeField),
      Member(b, KilroyField)[0],
      DecodeLe16(Member(b, TimeStampField)))
  }

  /** The bytes of the packed struct, members in declaration order. */
  function SerializeReport(r: InputReport): (b: seq<uint8>)
    requires WellFormed(r)
  {
    [r.reportId] + [r.numContacts] + SerializeContacts(r.contact) + [r.button] +
    r.track + r.zx + r.zy + r.palmTime + [r.kilroy] + Le16Bytes(r.timeStamp)
  }

  lemma {:induction false} ContactsRoundTrip(cs: seq<ContactData>)
    ensures ParseContacts(SerializeContacts(cs)) == cs
  {
    if cs != [] {
      var s := SerializeContacts(cs);
      assert s[CONTACT_SIZE..] == SerializeContacts(cs[1..]);
      ContactsRoundTrip(cs[1..]);
    }
  }

  lemma {:induction false} ContactsBytesRoundTrip(s: seq<uint8>)
    requires |s| % CONTACT_SIZE == 0
    ensures SerializeContacts(ParseContacts(s)) == s
  {
    if |s| > 0 {
      var cs := ParseContacts(s);
      assert cs[1..] == ParseContacts(s[CONTACT_SIZE..]);
      ContactsBytesRoundTrip(s[CONTACT_SIZE..]);
      assert s == s[..CONTACT_SIZE] + s[CONTACT_SIZE..];
    }
  }

  /** A serialized report is exactly `sizeof(struct t4_input_report)` bytes long. */
  lemma SerializedLength(r: InputReport)
    requires WellFormed(r)
    ensures |SerializeReport(r)| == INPUT_REPORT_LEN
  {
    Layout();
  }

  /** Reading back the bytes of a report gives the same report. */
  lemma ParseSerialize(r: InputReport)
    requires WellFormed(r)
    ensures |SerializeReport(r)| == INPUT_REPORT_LEN
    ensures ParseReport(SerializeReport(r)) == r
  {
    Layout();
    var b := SerializeReport(r);
    assert Member(b, ContactField) == SerializeContacts(r.contact);
    ContactsRoundTrip(r.contact);
    assert Member(b, TrackField) == r.track;
    assert Member(b, ZxField) == r.zx;
    assert Member(b, ZyField) == r.zy;
    assert Member(b, PalmTimeField) == r.palmTime;
    assert Member(b, TimeStampField) == Le16Bytes(r.timeStamp);
    Le16RoundTrip(r.timeStamp);
  }

  /** Every 51-byte buffer is the serialization of the report read from it. */
  lemma SerializeParse(b: seq<uint8>)
    requires |b| == INPUT_REPORT_LEN
    ensures SerializeReport(ParseReport(b)) == b
  {
    Layout();
    var r := ParseReport(b);
    ContactsBytesRoundTrip(Member(b, ContactField));
    Le16Injective(Member(b, TimeStampField));
    assert b == b[0..1] + b[1..2] + b[2..27] + b[27..28] + b[28..33] + b[33..38]
              + b[38..43] + b[43..48] + b[48..49] + b[49..51];
  }

  lemma {:induction false} ParseContactsAt(s: seq<uint8>, i: nat)
    requires |s| % CONTACT_SIZE == 0 && i < |s| / CONTACT_SIZE
    ensures ParseContacts(s)[i] ==
      ContactData(s[5 * i], s[5 * i + 1], s[5 * i + 2], s[5 * i + 3], s[5 * i + 4])
  {
    if i > 0 {
      ParseContactsAt(s[CONTACT_SIZE..], i - 1);
    }
  }

  /** Contact `i` occupies bytes 2+5i .. 6+5i as palm, x_lo, x_hi, y_lo, y_hi;
      the report id is byte 0 and the button byte is byte 27. */
  lemma ContactOffsets(b: seq<uint8>, i: nat)
    requires |b| == INPUT_REPORT_LEN && i < CONTACT_RECORDS
    ensures ParseReport(b).reportId == b[0]
    ensures ParseReport(b).button == b[27]
    ensures ParseReport(b).contact[i] ==
      ContactData(b[2 + 5 * i], b[3 + 5 * i], b[4 + 5 * i], b[5 + 5 * i], b[6 + 5 * i])
  {
    Layout();
    ParseContactsAt(Member(b, ContactField), i);
  }
}
