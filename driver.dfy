/** The `AlpsT4USBEventDriver` object: its `ready`/`awake` flags, the typing
    quiet window and the last keystroke time, the five contact slots, and
    the operations that drive them (the absolute-mode switch, the interrupt
    report handler, power-state changes and the keystroke message).

    What the driver hands to the outside is recorded instead of sent: every
    `setReport` call appends to `sentReports`, every event delivered to the
    multitouch consumer appends to `events`. The clock reading is the
    parameter `nowNs`. */
module AlpsT4 {
  import opened MachineInts
  import opened T4Layout
  import opened FeatureFrame
  import opened Transducers

  datatype Option<T> = None | Some(value: T)

  datatype HidReportType = Input | Output | Feature

  /** The `IOReturn` codes the driver gives back. */
  datatype IOReturn = ReturnSuccess | ReturnInvalid | PMAckImplied

  datatype SentReport = SentReport(reportType: HidReportType, reportId: uint8, bytes: seq<uint8>)

  /** The event handed to the multitouch consumer: the contact count and the
      slots as they are at that moment. */
  datatype MultitouchEvent = MultitouchEvent(contactCount: int, transducers: seq<Transducer>)

  /** Default of `max_after_typing`: half a second, in nanoseconds. */
  const DEFAULT_MAX_AFTER_TYPING: uint64 := 500000000
  const NS_PER_MS: nat := 1000000

  /** The logical extents the driver publishes for the consumer. */
  const LOGICAL_MAX_X: uint32 := 5120
  const LOGICAL_MAX_Y: uint32 := 3072

  /** `iokit_vendor_specific_msg(n)`: the IOKit system code 0x38 in the top
      six bits, the vendor-specific subsystem 0xFFE in the next twelve, `n`
      in the low fourteen. */
  function VendorSpecificMessage(n: nat): (m: uint32)
    requires n < 0x4000
    ensures m / 0x1000_0000 == 0xE && m % 0x4000 == n
  {
    0xE000_0000 + 0x3FF_8000 + n
  }

  /** The messages the keyboard driver sends to the touchpad driver. */
  const kKeyboardSetTouchStatus: uint32 := VendorSpecificMessage(100)
  const kKeyboardGetTouchStatus: uint32 := VendorSpecificMessage(101)
  const kKeyboardKeyPressTime: uint32 := VendorSpecificMessage(110)

  lemma MessageCodes()
    ensures kKeyboardKeyPressTime == 0xE3FF_806E
    ensures kKeyboardSetTouchStatus == 0xE3FF_8064 && kKeyboardGetTouchStatus == 0xE3FF_8065
  {
  }

  /** The report `enterPrecisionTouchpadMode` sends. */
  function AbsoluteModeReport(): SentReport
  {
    SentReport(Feature, FEATURE_REPORT_ID, ABS_MODE_FRAME)
  }

  /** `quietTimeAfterTyping * 1000000` in `uint64_t`. */
  function QuietWindow(ms: uint64): (w: uint64)
    ensures ms * NS_PER_MS < 0x1_0000_0000_0000_0000 ==> w == ms * NS_PER_MS
  {
    Wrap64(ms * NS_PER_MS)
  }

  /** The multiplication wraps once the setting exceeds about 1.8e13 ms: one
      millisecond more than that gives a window of under half a millisecond. */
  lemma QuietWindowWraps()
    ensures QuietWindow(18446744073709) == 18446744073709000000
    ensures QuietWindow(18446744073710) == 448384
  {
  }

  /** `now_ns - key_time < max_after_typing` in `uint64_t`. */
  predicate TypingSuppressed(nowNs: uint64, keyTime: uint64, window: uint64)
  {
    Wrap64(nowNs - keyTime) < window
  }

  /** When the key press is not in the future, a report is dropped exactly
      while less than the window has passed; at exactly the window it is
      processed. */
  lemma SuppressedWithinWindow(nowNs: uint64, keyTime: uint64, window: uint64)
    requires keyTime <= nowNs
    ensures TypingSuppressed(nowNs, keyTime, window) <==> nowNs - keyTime < window
    ensures nowNs - keyTime == window ==> !TypingSuppressed(nowNs, keyTime, window)
  {
  }

  /** A key time later than the clock wraps the difference around: the
      report is dropped only if the window exceeds `2^64 - (keyTime - now)`. */
  lemma SuppressedWrapped(nowNs: uint64, keyTime: uint64, window: uint64)
    requires nowNs < keyTime
    ensures TypingSuppressed(nowNs, keyTime, window) <==> 0x1_0000_0000_0000_0000 + nowNs - keyTime < window
  {
  }

  /** A zero window never drops a report. */
  lemma ZeroWindowAdmits(nowNs: uint64, keyTime: uint64)
    ensures !TypingSuppressed(nowNs, keyTime, 0)
  {
  }

  /** With the default window and no key pressed yet, the first half second
      of uptime is treated as just after typing. */
  lemma InitialQuietPeriod(nowNs: uint64)
    ensures TypingSuppressed(nowNs, 0, DEFAULT_MAX_AFTER_TYPING) <==> nowNs < 500000000
  {
  }

  /** The admission gate of `handleInterruptReport`. */
  predicate Admits(nowNs: uint64, keyTime: uint64, window: uint64, ready: bool,
                   report: Option<seq<uint8>>, reportType: HidReportType, reportId: uint32)
  {
    !TypingSuppressed(nowNs, keyTime, window) && ready && report.Some? &&
    reportType == Input && reportId == INPUT_REPORT_ID as uint32
  }

  /** Each condition of the gate on its own is enough to drop a report. */
  lemma GateConditions(nowNs: uint64, keyTime: uint64, window: uint64, ready: bool,
                       report: Option<seq<uint8>>, reportType: HidReportType, reportId: uint32)
    ensures Wrap64(nowNs - keyTime) < window ==> !Admits(nowNs, keyTime, window, ready, report, reportType, reportId)
    ensures !ready || report.None? ==> !Admits(nowNs, keyTime, window, ready, report, reportType, reportId)
    ensures reportType != Input ==> !Admits(nowNs, keyTime, window, ready, report, reportType, reportId)
    ensures reportId != 0x09 ==> !Admits(nowNs, keyTime, window, ready, report, reportType, reportId)
    ensures Wrap64(nowNs - keyTime) >= window && ready && report.Some? && reportType == Input && reportId == 0x09
            ==> Admits(nowNs, keyTime, window, ready, report, reportType, reportId)
  {
  }

  /** The `awake`/`ready` pair that `setPowerState` works on. */
  datatype PowerState = PowerState(awake: bool, ready: bool)

  /** The outcome of a power-state change for this device: the new pair, and
      whether the absolute-mode frame was sent. */
  datatype PowerStep = PowerStep(next: PowerState, sendsFrame: bool)

  function PowerTransition(s: PowerState, whichState: uint64): (r: PowerStep)
  {
    if whichState == 0 then PowerStep(s.(awake := false), false)
    else if !s.awake then PowerStep(PowerState(true, true), true)
    else PowerStep(s, false)
  }

  /** Afterwards the device is awake exactly when the state is nonzero; the
      frame goes out exactly on waking from sleep; `ready` is never cleared. */
  lemma PowerTransitionSpec(s: PowerState, whichState: uint64)
    ensures PowerTransition(s, whichState).next.awake <==> whichState != 0
    ensures PowerTransition(s, whichState).sendsFrame <==> whichState != 0 && !s.awake
    ensures s.ready ==> PowerTransition(s, whichState).next.ready
    ensures PowerTransition(s, whichState).next.ready <==> s.ready || PowerTransition(s, whichState).sendsFrame
  {
  }

  /** Repeating a power state changes nothing and sends nothing. */
  lemma PowerTransitionIdempotent(s: PowerState, whichState: uint64)
    ensures var t := PowerTransition(s, whichState).next;
            PowerTransition(t, whichState) == PowerStep(t, false)
  {
  }

  /** Sleeping and waking again, from any state, sends one frame and leaves
      the device awake and ready. */
  lemma SleepWakeCycle(s: PowerState, whichState: uint64)
    requires whichState != 0
    ensures var sleep := PowerTransition(s, 0);
            var wake := PowerTransition(sleep.next, whichState);
            !sleep.sendsFrame && wake.sendsFrame && wake.next == PowerState(true, true)
  {
  }

  /** The body of the slot loop of `handleInterruptReport` for slot `i`:
      the slot's new state, and whether its contact counts. */
  method UpdateSlot(transducer: Transducer, contact: ContactData, button: uint8, i: int)
    returns (t: Transducer, contactValid: bool)
    ensures t == DecodeSlot(transducer, contact, button, i, LOGICAL_MAX_X, LOGICAL_MAX_Y)
    ensures contactValid <==> 0 < contact.palm < 0x80
  {
    t := transducer.(kind := Finger, logicalMaxX := LOGICAL_MAX_X, logicalMaxY := LOGICAL_MAX_Y, id := 9);
    var x: uint32 := JoinBytes(contact.xHi, contact.xLo);
    var y: uint32 := JoinBytes(contact.yHi, contact.yLo);
    y := Wrap32(Wrap32(3060 - y) + 255);
    assert y == InvertY(JoinBytes(contact.yHi, contact.yLo));
    var z: uint32 := (if contact.palm < 0x80 && contact.palm > 0 then 1 else 0) * 62;
    contactValid := z != 0;
    ValidBand(contact.palm);
    assert contactValid == ContactValid(contact.palm);
    t := t.(isValid := contactValid);
    if contactValid {
      t := t.(x := Update(t.x, x), y := Update(t.y, y), button := Update(t.button, button),
              tip := Update(t.tip, 1), secondaryId := i);
    } else {
      t := t.(secondaryId := i, x := Update(t.x, t.x.last), y := Update(t.y, t.y.last),
              button := Update(t.button, 0), tip := Update(t.tip, 0));
    }
  }

  class Driver {
    var ready: bool
    var awake: bool
    var maxAfterTyping: uint64
    var keyTime: uint64
    const transducers: array<Transducer>
    var sentReports: seq<SentReport>
    var events: seq<MultitouchEvent>

    predicate Valid()
    {
      transducers.Length == MAX_TOUCHES
    }

    /** The member defaults, then `init`: five finger slots and `awake`. */
    constructor ()
      ensures Valid() && fresh(transducers)
      ensures !ready && awake && maxAfterTyping == DEFAULT_MAX_AFTER_TYPING && keyTime == 0
      ensures transducers[..] == seq(MAX_TOUCHES, _ => NewTransducer(Finger))
      ensures sentReports == [] && events == []
    {
      ready := false;
      maxAfterTyping := DEFAULT_MAX_AFTER_TYPING;
      keyTime := 0;
      transducers := new Transducer[MAX_TOUCHES](_ => NewTransducer(Finger));
      awake := true;
      sentReports := [];
      events := [];
    }

    /** The `QuietTimeAfterTyping` property read in `start`, when present,
        replaces the window. */
    method ConfigureQuietTime(quietTimeAfterTyping: Option<uint64>)
      modifies this
      ensures maxAfterTyping == if quietTimeAfterTyping.Some? then QuietWindow(quietTimeAfterTyping.value)
                                else old(maxAfterTyping)
      ensures ready == old(ready) && awake == old(awake) && keyTime == old(keyTime)
      ensures sentReports == old(sentReports) && events == old(events)
    {
      if quietTimeAfterTyping.Some? {
        maxAfterTyping := Wrap64(quietTimeAfterTyping.value * 1000000);
      }
    }

    /** `enterPrecisionTouchpadMode`: build the frame, send it, and set
        `ready`, whatever the send returns. */
    method EnterPrecisionTouchpadMode()
      modifies this
      ensures ready
      ensures sentReports == old(sentReports) + [AbsoluteModeReport()]
      ensures awake == old(awake) && maxAfterTyping == old(maxAfterTyping) && keyTime == old(keyTime)
      ensures events == old(events)
    {
      var frame := BuildAbsoluteModeFrame();
      sentReports := sentReports + [SentReport(Feature, FEATURE_REPORT_ID, frame)];
      ready := true;
    }

    /** The loop over the five slots of `handleInterruptReport`. */
    method DecodeSlots(reportData: InputReport) returns (contactCount: int)
      requires Valid() && WellFormed(reportData)
      modifies transducers
      ensures transducers[..] == DecodeAll(old(transducers[..]), reportData, LOGICAL_MAX_X, LOGICAL_MAX_Y)
      ensures contactCount == ValidCount(reportData.contact)
    {
      ghost var before := transducers[..];
      DecodePrefixZero(before, reportData, LOGICAL_MAX_X, LOGICAL_MAX_Y);
      contactCount := 0;
      var i := 0;
      while i < MAX_TOUCHES
        invariant 0 <= i <= MAX_TOUCHES
        invariant transducers[..] == DecodePrefix(before, reportData, i, LOGICAL_MAX_X, LOGICAL_MAX_Y)
        invariant contactCount == ValidCount(reportData.contact[..i])
      {
        DecodePrefixStep(before, reportData, i, LOGICAL_MAX_X, LOGICAL_MAX_Y);
        ValidCountStep(reportData.contact, i);
        var transducer, contactValid := UpdateSlot(transducers[i], reportData.contact[i], reportData.button, i);
        if contactValid {
          contactCount := contactCount + 1;
        }
        transducers[i] := transducer;
        i := i + 1;
      }
      assert reportData.contact[..MAX_TOUCHES] == reportData.contact;
    }

    /** `handleInterruptReport`: the gate, then the slot loop over the report
        read into the packed struct, then one event for the consumer. A
        dropped report changes nothing. */
    method HandleInterruptReport(nowNs: uint64, report: Option<seq<uint8>>,
                                 reportType: HidReportType, reportId: uint32)
      requires Valid()
      requires Admits(nowNs, keyTime, maxAfterTyping, ready, report, reportType, reportId)
               ==> |report.value| >= INPUT_REPORT_LEN
      modifies this, transducers
      ensures ready == old(ready) && awake == old(awake) && keyTime == old(keyTime)
      ensures maxAfterTyping == old(maxAfterTyping) && sentReports == old(sentReports)
      ensures !Admits(nowNs, keyTime, maxAfterTyping, ready, report, reportType, reportId)
              ==> transducers[..] == old(transducers[..]) && events == old(events)
      ensures Admits(nowNs, keyTime, maxAfterTyping, ready, report, reportType, reportId)
              ==> var r := ParseReport(report.value[..INPUT_REPORT_LEN]);
                  transducers[..] == DecodeAll(old(transducers[..]), r, LOGICAL_MAX_X, LOGICAL_MAX_Y) &&
                  events == old(events) + [MultitouchEvent(ValidCount(r.contact), transducers[..])]
    {
      if Wrap64(nowNs - keyTime) < maxAfterTyping {
        return;
      }
      if !ready || report.None? {
        return;
      }
      if reportType != Input {
        return;
      }
      if reportId != INPUT_REPORT_ID as uint32 {
        return;
      }
      var reportData := ParseReport(report.value[..INPUT_REPORT_LEN]);
      var contactCount := DecodeSlots(reportData);
      events := events + [MultitouchEvent(contactCount, transducers[..])];
    }

    /** `setPowerState`: another device is refused; state 0 puts the touchpad
        to sleep; a nonzero state wakes a sleeping touchpad by sending the
        absolute-mode frame again. */
    method SetPowerState(whichState: uint64, whatDevice: object?) returns (r: IOReturn)
      requires Valid()
      modifies this
      ensures whatDevice != this ==>
                r == ReturnInvalid && awake == old(awake) && ready == old(ready) &&
                sentReports == old(sentReports)
      ensures whatDevice == this ==>
                var step := PowerTransition(PowerState(old(awake), old(ready)), whichState);
                r == PMAckImplied && PowerState(awake, ready) == step.next &&
                sentReports == old(sentReports) + (if step.sendsFrame then [AbsoluteModeReport()] else [])
      ensures maxAfterTyping == old(maxAfterTyping) && keyTime == old(keyTime) && events == old(events)
    {
      if whatDevice != this {
        return ReturnInvalid;
      }
      if whichState == 0 {
        if awake {
          awake := false;
        }
      } else {
        if !awake {
          EnterPrecisionTouchpadMode();
          awake := true;
        }
      }
      return PMAckImplied;
    }

    /** `message`: a keystroke notice records its timestamp; every message,
        that one included, is answered with success. */
    method Message(msgType: uint32, argument: uint64) returns (r: IOReturn)
      modifies this
      ensures r == ReturnSuccess
      ensures keyTime == if msgType == kKeyboardKeyPressTime then argument else old(keyTime)
      ensures ready == old(ready) && awake == old(awake) && maxAfterTyping == old(maxAfterTyping)
      ensures sentReports == old(sentReports) && events == old(events)
    {
      if msgType == kKeyboardKeyPressTime {
        keyTime := argument;
      }
      return ReturnSuccess;
    }
  }

  /** A keystroke at time `k` followed by an otherwise admissible report less
      than the window later: the report is dropped; the same report once
      the window has passed is decoded. */
  method TypingThenTouch(d: Driver, k: uint64, report: seq<uint8>)
    requires d.Valid() && d.ready && |report| >= INPUT_REPORT_LEN
    requires 0 < d.maxAfterTyping && k as int + d.maxAfterTyping as int < 0x1_0000_0000_0000_0000
    modifies d, d.transducers
    ensures d.keyTime == k
    ensures |d.events| == |old(d.events)| + 1 && d.events[..|old(d.events)|] == old(d.events)
    ensures d.events[|old(d.events)|].contactCount == ValidCount(ParseReport(report[..INPUT_REPORT_LEN]).contact)
  {
    var _ := d.Message(kKeyboardKeyPressTime, k);
    d.HandleInterruptReport(k + d.maxAfterTyping - 1, Some(report), Input, 0x09);
    assert d.events == old(d.events);
    d.HandleInterruptReport(k + d.maxAfterTyping, Some(report), Input, 0x09);
  }
}
