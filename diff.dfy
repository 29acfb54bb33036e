/** The state diff of updateUInputDevice: from the previously applied
    snapshot p and the freshly read snapshot c, the ordered events written to
    the virtual device. Each sendInputEvent call is one element of the result. */
module StateDiff {
  import opened Registers
  import opened Events

  /** USE_ANALOG_DPAD: false reports the d-pad as four keys, true as the two
      hat axes HAT0Y and HAT0X. */
  const UseAnalogDpad: bool := false

  /** Whether button bit b changed between p and c. */
  predicate Toggled(p: Status, c: Status, b: nat) {
    Bit(p.buttons, b) != Bit(c.buttons, b)
  }

  /** The value of a key event for bit b: 1 when the new bit is set, else 0. */
  function KeyValue(c: Status, b: nat): (v: int)
    ensures v == 1 <==> Bit(c.buttons, b)
    ensures v == 0 <==> !Bit(c.buttons, b)
  {
    if Bit(c.buttons, b) then 1 else 0
  }

  /** One TestBitAndSendKeyEvent per bit lo, lo + 1, ..., hi - 1, in that order. */
  function KeyEvents(p: Status, c: Status, lo: nat, hi: nat): (r: seq<Event>)
    requires lo <= hi <= NumKeys
    decreases hi - lo
  {
    if lo == hi then []
    else
      (if Toggled(p, c, lo) then [Key(KeyAt(lo), KeyValue(c, lo))] else [])
      + KeyEvents(p, c, lo + 1, hi)
  }

  /** Value of a hat: -1 when the negative bit (up or left) is set, which wins
      when both are set, else +1 when the positive bit is set, else 0. */
  function HatValue(c: Status, neg: nat, pos: nat): (v: int)
    ensures -1 <= v <= 1
    ensures v == -1 <==> Bit(c.buttons, neg)
    ensures v == 1 <==> !Bit(c.buttons, neg) && Bit(c.buttons, pos)
  {
    if Bit(c.buttons, neg) then -1 else if Bit(c.buttons, pos) then 1 else 0
  }

  /** One hat of the analog d-pad: a single event when either of its two bits
      changed. The source computes the value from an undeclared `newValue`;
      the new snapshot's buttons are what it evidently means. */
  function HatEvent(p: Status, c: Status, hat: AbsCode, neg: nat, pos: nat): seq<Event> {
    if Toggled(p, c, neg) || Toggled(p, c, pos) then [Abs(hat, HatValue(c, neg, pos))] else []
  }

  /** The analog d-pad: HAT0Y from bits 8 (up) and 9 (down), then HAT0X from
      bits 10 (left) and 11 (right). */
  function HatEvents(p: Status, c: Status): seq<Event> {
    HatEvent(p, c, AbsHat0Y, 8, 9) + HatEvent(p, c, AbsHat0X, 10, 11)
  }

  /** The stick rescale (raw - 128) * 4, from the centred 8-bit reading to the
      device's axis range. It loses nothing: raw is recovered from the output. */
  function Rescale(raw: U8): (v: int)
    ensures AbsMin(AbsX) <= v <= 508 < AbsMax(AbsX)
    ensures AbsMin(AbsY) <= v <= 508 < AbsMax(AbsY)
    ensures v % 4 == 0 && v / 4 + 128 == raw
  {
    (raw - 128) * 4
  }

  /** One stick axis: an event only when the raw reading changed. */
  function AxisEvent(axis: AbsCode, before: U8, after: U8): seq<Event> {
    if after != before then [Abs(axis, Rescale(after))] else []
  }

  function AxisEvents(p: Status, c: Status): seq<Event> {
    AxisEvent(AbsX, p.axis0, c.axis0) + AxisEvent(AbsY, p.axis1, c.axis1)
  }

  function DpadEvents(analog: bool, p: Status, c: Status): seq<Event> {
    if analog then HatEvents(p, c) else KeyEvents(p, c, 8, NumKeys)
  }

  /** updateUInputDevice with the d-pad encoding as a parameter: the eight
      face, shoulder, start and select buttons, then the d-pad, then ABS_X,
      then ABS_Y. Every event is within the range the device declares. */
  function DiffWith(analog: bool, p: Status, c: Status): (r: seq<Event>)
    ensures |r| <= NumSlots
    ensures AllInDeviceRange(r) && Ordered(r)
  {
    var keys := KeyEvents(p, c, 0, 8);
    var dpad := DpadEvents(analog, p, c);
    var axes := AxisEvents(p, c);
    DiffShape(analog, p, c);
    keys + dpad + axes
  }

  /** updateUInputDevice as built, with USE_ANALOG_DPAD == 0. */
  function Diff(p: Status, c: Status): seq<Event> {
    DiffWith(UseAnalogDpad, p, c)
  }

  /** The slots each part of the diff uses, and that together they stay
      ordered and within the device's ranges. */
  lemma DiffShape(analog: bool, p: Status, c: Status)
    ensures WellFormed(KeyEvents(p, c, 0, 8), 0, 8)
    ensures WellFormed(DpadEvents(analog, p, c), 8, SlotX)
    ensures WellFormed(AxisEvents(p, c), SlotX, NumSlots)
    ensures WellFormed(KeyEvents(p, c, 0, 8) + DpadEvents(analog, p, c) + AxisEvents(p, c), 0, NumSlots)
    ensures |KeyEvents(p, c, 0, 8)| <= 8 && |DpadEvents(analog, p, c)| <= 4 && |AxisEvents(p, c)| <= 2
  {
    var keys := KeyEvents(p, c, 0, 8);
    var dpad := DpadEvents(analog, p, c);
    var axes := AxisEvents(p, c);
    KeyEventsShape(p, c, 0, 8);
    DpadShape(analog, p, c);
    AxesShape(p, c);
    ConcatWellFormed(keys, dpad, 0, 8, SlotX);
    ConcatWellFormed(keys + dpad, axes, 0, SlotX, NumSlots);
  }

  lemma DpadShape(analog: bool, p: Status, c: Status)
    ensures WellFormed(DpadEvents(analog, p, c), 8, SlotX)
    ensures |DpadEvents(analog, p, c)| <= 4
  {
    if analog {
      var y := HatEvent(p, c, AbsHat0Y, 8, 9);
      var x := HatEvent(p, c, AbsHat0X, 10, 11);
      HatShape(p, c, AbsHat0Y, 8, 9);
      HatShape(p, c, AbsHat0X, 10, 11);
      WidenWellFormed(y, SlotHat0Y, SlotHat0X, 8, SlotHat0X);
      ConcatWellFormed(y, x, 8, SlotHat0X, SlotX);
    } else {
      KeyEventsShape(p, c, 8, NumKeys);
      WidenWellFormed(KeyEvents(p, c, 8, NumKeys), 8, NumKeys, 8, SlotX);
    }
  }

  lemma HatShape(p: Status, c: Status, hat: AbsCode, neg: nat, pos: nat)
    requires hat == AbsHat0Y || hat == AbsHat0X
    ensures WellFormed(HatEvent(p, c, hat, neg, pos), Slot(Abs(hat, 0)), Slot(Abs(hat, 0)) + 1)
  {
    if Toggled(p, c, neg) || Toggled(p, c, pos) {
      SingleWellFormed(Abs(hat, HatValue(c, neg, pos)));
    }
  }

  lemma AxesShape(p: Status, c: Status)
    ensures WellFormed(AxisEvents(p, c), SlotX, NumSlots)
    ensures |AxisEvents(p, c)| <= 2
  {
    var x := AxisEvent(AbsX, p.axis0, c.axis0);
    var y := AxisEvent(AbsY, p.axis1, c.axis1);
    if c.axis0 != p.axis0 {
      SingleWellFormed(Abs(AbsX, Rescale(c.axis0)));
    }
    if c.axis1 != p.axis1 {
      SingleWellFormed(Abs(AbsY, Rescale(c.axis1)));
    }
    ConcatWellFormed(x, y, SlotX, SlotY, NumSlots);
  }

  /** The key events for bits lo..hi-1 are at most one per bit, in bit order,
      each with value 0 or 1. */
  lemma {:induction false} KeyEventsShape(p: Status, c: Status, lo: nat, hi: nat)
    requires lo <= hi <= NumKeys
    decreases hi - lo
    ensures |KeyEvents(p, c, lo, hi)| <= hi - lo
    ensures WellFormed(KeyEvents(p, c, lo, hi), lo, hi)
  {
    if lo < hi {
      var here := if Toggled(p, c, lo) then [Key(KeyAt(lo), KeyValue(c, lo))] else [];
      var rest := KeyEvents(p, c, lo + 1, hi);
      KeyEventsShape(p, c, lo + 1, hi);
      assert KeyEvents(p, c, lo, hi) == here + rest;
      if here != [] {
        SingleWellFormed(here[0]);
      }
      ConcatWellFormed(here, rest, lo, lo + 1, hi);
    }
  }
}
