/** What the diff of updateUInputDevice reports, slot by slot: for every code,
    the events of that code in the diff are exactly one event when its input
    changed and none otherwise. */
module DiffProperties {
  import opened Registers
  import opened Events
  import opened StateDiff

  /** The key event for bit n, if n lies in [lo, hi) and that bit changed. */
  function KeyOn(p: Status, c: Status, lo: nat, hi: nat, n: nat): seq<Event>
    requires hi <= NumKeys
  {
    if lo <= n < hi && Toggled(p, c, n) then [Key(KeyAt(n), KeyValue(c, n))] else []
  }

  lemma {:induction false} OnKeyEvents(p: Status, c: Status, lo: nat, hi: nat, n: nat)
    requires lo <= hi <= NumKeys
    decreases hi - lo
    ensures On(KeyEvents(p, c, lo, hi), n) == KeyOn(p, c, lo, hi, n)
  {
    if lo < hi {
      var here := if Toggled(p, c, lo) then [Key(KeyAt(lo), KeyValue(c, lo))] else [];
      var rest := KeyEvents(p, c, lo + 1, hi);
      assert KeyEvents(p, c, lo, hi) == here + rest;
      OnConcat(here, rest, n);
      OnKeyEvents(p, c, lo + 1, hi, n);
      assert On(here, n) == if n == lo then here else [] by {
        if here != [] {
          OnSingle(here[0], n);
        }
      }
      if n == lo {
        assert KeyOn(p, c, lo, hi, n) == here;
        assert On(rest, n) == [];
        assert here + [] == here;
      } else {
        assert KeyOn(p, c, lo, hi, n) == KeyOn(p, c, lo + 1, hi, n);
        assert [] + On(rest, n) == On(rest, n);
      }
    }
  }

  /** What slot n of the diff holds, stated per code without reference to
      the emission chain: the key for bit n once if that bit changed (no d-pad
      keys in analog mode), a hat once if either of its bits changed (analog
      mode only), an axis once if its raw reading changed. */
  function Expected(analog: bool, p: Status, c: Status, n: nat): (r: seq<Event>)
    ensures |r| <= 1
    ensures forall e :: e in r ==> Slot(e) == n && InDeviceRange(e)
  {
    if n < 8 || (!analog && n < NumKeys) then
      if Toggled(p, c, n) then [Key(KeyAt(n), KeyValue(c, n))] else []
    else if n == SlotHat0Y then
      if analog && (Toggled(p, c, 8) || Toggled(p, c, 9)) then [Abs(AbsHat0Y, HatValue(c, 8, 9))] else []
    else if n == SlotHat0X then
      if analog && (Toggled(p, c, 10) || Toggled(p, c, 11)) then [Abs(AbsHat0X, HatValue(c, 10, 11))] else []
    else if n == SlotX then
      if c.axis0 != p.axis0 then [Abs(AbsX, Rescale(c.axis0))] else []
    else if n == SlotY then
      if c.axis1 != p.axis1 then [Abs(AbsY, Rescale(c.axis1))] else []
    else []
  }

  lemma OnHatEvent(p: Status, c: Status, hat: AbsCode, neg: nat, pos: nat, n: nat)
    ensures On(HatEvent(p, c, hat, neg, pos), n) ==
      if Slot(Abs(hat, 0)) == n then HatEvent(p, c, hat, neg, pos) else []
  {
    if Toggled(p, c, neg) || Toggled(p, c, pos) {
      OnSingle(Abs(hat, HatValue(c, neg, pos)), n);
    }
  }

  lemma OnAxisEvent(axis: AbsCode, before: U8, after: U8, n: nat)
    ensures On(AxisEvent(axis, before, after), n) ==
      if Slot(Abs(axis, 0)) == n then AxisEvent(axis, before, after) else []
  {
    if after != before {
      OnSingle(Abs(axis, Rescale(after)), n);
    }
  }

  function DpadOn(analog: bool, p: Status, c: Status, n: nat): seq<Event> {
    if !analog then KeyOn(p, c, 8, NumKeys, n)
    else if n == SlotHat0Y then HatEvent(p, c, AbsHat0Y, 8, 9)
    else if n == SlotHat0X then HatEvent(p, c, AbsHat0X, 10, 11)
    else []
  }

  function AxesOn(p: Status, c: Status, n: nat): seq<Event> {
    if n == SlotX then AxisEvent(AbsX, p.axis0, c.axis0)
    else if n == SlotY then AxisEvent(AbsY, p.axis1, c.axis1)
    else []
  }

  lemma OnDpadEvents(analog: bool, p: Status, c: Status, n: nat)
    ensures On(DpadEvents(analog, p, c), n) == DpadOn(analog, p, c, n)
  {
    if analog {
      var y := HatEvent(p, c, AbsHat0Y, 8, 9);
      var x := HatEvent(p, c, AbsHat0X, 10, 11);
      OnConcat(y, x, n);
      OnHatEvent(p, c, AbsHat0Y, 8, 9, n);
      OnHatEvent(p, c, AbsHat0X, 10, 11, n);
    } else {
      OnKeyEvents(p, c, 8, NumKeys, n);
    }
  }

  lemma OnAxisEvents(p: Status, c: Status, n: nat)
    ensures On(AxisEvents(p, c), n) == AxesOn(p, c, n)
  {
    var x := AxisEvent(AbsX, p.axis0, c.axis0);
    var y := AxisEvent(AbsY, p.axis1, c.axis1);
    OnConcat(x, y, n);
    OnAxisEvent(AbsX, p.axis0, c.axis0, n);
    OnAxisEvent(AbsY, p.axis1, c.axis1, n);
  }

  /** The diff agrees with Expected in every slot: for every code, it holds
      exactly the events Expected names for it. Together with DiffWith's own
      guarantee that slots strictly increase along the result, this fixes both
      which events are written and their order. */
  lemma DiffPerSlot(analog: bool, p: Status, c: Status, n: nat)
    ensures On(DiffWith(analog, p, c), n) == Expected(analog, p, c, n)
  {
    OnDiffParts(analog, p, c, n);
    OnKeyEvents(p, c, 0, 8, n);
    OnDpadEvents(analog, p, c, n);
    OnAxisEvents(p, c, n);
    ExpectedSplit(analog, p, c, n);
  }

  lemma OnDiffParts(analog: bool, p: Status, c: Status, n: nat)
    ensures On(DiffWith(analog, p, c), n) ==
      On(KeyEvents(p, c, 0, 8), n) + On(DpadEvents(analog, p, c), n) + On(AxisEvents(p, c), n)
  {
    var keys := KeyEvents(p, c, 0, 8);
    var dpad := DpadEvents(analog, p, c);
    var axes := AxisEvents(p, c);
    assert DiffWith(analog, p, c) == keys + dpad + axes;
    OnConcat(keys + dpad, axes, n);
    OnConcat(keys, dpad, n);
  }

  /** Expected is what the three parts of the chain put in slot n. */
  lemma ExpectedSplit(analog: bool, p: Status, c: Status, n: nat)
    ensures Expected(analog, p, c, n) == KeyOn(p, c, 0, 8, n) + DpadOn(analog, p, c, n) + AxesOn(p, c, n)
  {
    if n < 8 {
      assert DpadOn(analog, p, c, n) == [] && AxesOn(p, c, n) == [];
    } else if n < NumKeys {
      assert KeyOn(p, c, 0, 8, n) == [] && AxesOn(p, c, n) == [];
    } else if n < SlotX {
      assert KeyOn(p, c, 0, 8, n) == [] && AxesOn(p, c, n) == [];
    } else {
      assert KeyOn(p, c, 0, 8, n) == [] && DpadOn(analog, p, c, n) == [];
    }
  }

  /** A key event for button bit b is emitted exactly when bit b differs
      between the two snapshots, once, with value 1 when the new bit is set and
      0 otherwise. This holds for the eight buttons in both d-pad encodings
      and for the four d-pad bits in the digital one. */
  lemma KeyReported(analog: bool, p: Status, c: Status, b: nat)
    requires b < 8 || (!analog && b < NumKeys)
    ensures On(DiffWith(analog, p, c), b) ==
      if Toggled(p, c, b) then [Key(KeyAt(b), KeyValue(c, b))] else []
  {
    DiffPerSlot(analog, p, c, b);
  }

  /** With the analog d-pad the four d-pad bits produce no key events, and
      with the digital d-pad no hat events are emitted. */
  lemma DpadEncodingsExclusive(p: Status, c: Status, b: nat)
    requires 8 <= b < NumKeys
    ensures On(DiffWith(true, p, c), b) == []
    ensures On(DiffWith(false, p, c), SlotHat0Y) == []
    ensures On(DiffWith(false, p, c), SlotHat0X) == []
  {
    DiffPerSlot(true, p, c, b);
    DiffPerSlot(false, p, c, SlotHat0Y);
    DiffPerSlot(false, p, c, SlotHat0X);
  }

  /** The analog d-pad emits at most one HAT0Y and one HAT0X event per cycle,
      even when both bits of a hat changed: one event exactly when either of
      its bits changed, valued by HatValue (negative bit wins a tie). */
  lemma HatReported(p: Status, c: Status)
    ensures On(DiffWith(true, p, c), SlotHat0Y) ==
      if Toggled(p, c, 8) || Toggled(p, c, 9) then [Abs(AbsHat0Y, HatValue(c, 8, 9))] else []
    ensures On(DiffWith(true, p, c), SlotHat0X) ==
      if Toggled(p, c, 10) || Toggled(p, c, 11) then [Abs(AbsHat0X, HatValue(c, 10, 11))] else []
  {
    DiffPerSlot(true, p, c, SlotHat0Y);
    DiffPerSlot(true, p, c, SlotHat0X);
  }

  /** An axis event is emitted exactly when the raw reading changed, once,
      with the rescaled new reading. */
  lemma AxisReported(analog: bool, p: Status, c: Status)
    ensures On(DiffWith(analog, p, c), SlotX) ==
      if c.axis0 != p.axis0 then [Abs(AbsX, Rescale(c.axis0))] else []
    ensures On(DiffWith(analog, p, c), SlotY) ==
      if c.axis1 != p.axis1 then [Abs(AbsY, Rescale(c.axis1))] else []
  {
    DiffPerSlot(analog, p, c, SlotX);
    DiffPerSlot(analog, p, c, SlotY);
  }

  /** Every key event of a cycle comes before every axis event of it: the
      buttons are diffed first, then the d-pad, then ABS_X and ABS_Y. */
  lemma KeysPrecedeAxes(analog: bool, p: Status, c: Status)
    ensures forall i, j ::
      0 <= i < |DiffWith(analog, p, c)| && 0 <= j < |DiffWith(analog, p, c)| &&
      DiffWith(analog, p, c)[i].Key? && DiffWith(analog, p, c)[j].Abs?
      ==> i < j
  {
    var r := DiffWith(analog, p, c);
    forall i, j | 0 <= i < |r| && 0 <= j < |r| && r[i].Key? && r[j].Abs? ensures i < j {
      OrderedIndexes(r, i, j);
    }
  }

  /** Diffing a snapshot against itself emits nothing. */
  lemma DiffOfSelf(analog: bool, s: Status)
    ensures DiffWith(analog, s, s) == []
  {
    var r := DiffWith(analog, s, s);
    if r != [] {
      OnMember(r, 0);
      DiffPerSlot(analog, s, s, Slot(r[0]));
      assert false;
    }
  }

  /** When only button bit k differs and the sticks did not move, the diff is
      the single key event for bit k. */
  lemma {:induction false} KeyEventsSingle(p: Status, c: Status, lo: nat, hi: nat, k: nat)
    requires lo <= hi <= NumKeys
    requires forall j :: lo <= j < hi && j != k ==> !Toggled(p, c, j)
    requires Toggled(p, c, k)
    decreases hi - lo
    ensures KeyEvents(p, c, lo, hi) == if lo <= k < hi then [Key(KeyAt(k), KeyValue(c, k))] else []
  {
    if lo < hi {
      KeyEventsSingle(p, c, lo + 1, hi, k);
    }
  }

  /** Edge triggering: snapshots that differ in exactly one button bit k and
      nowhere else that the diff reads give exactly one key event, for k, with
      the new bit's value. */
  lemma SingleToggle(p: Status, c: Status, k: nat)
    requires k < NumKeys
    requires forall j :: 0 <= j < NumKeys && j != k ==> !Toggled(p, c, j)
    requires Toggled(p, c, k)
    requires p.axis0 == c.axis0 && p.axis1 == c.axis1
    ensures Diff(p, c) == [Key(KeyAt(k), KeyValue(c, k))]
  {
    KeyEventsSingle(p, c, 0, 8, k);
    KeyEventsSingle(p, c, 8, NumKeys, k);
  }

  /** The reference points of the stick rescale. */
  lemma RescaleReferencePoints()
    ensures Rescale(128) == 0 && Rescale(0) == -512 && Rescale(255) == 508
  {
  }

  /** The driver starts with the sticks at 127, not at the centre 128: the
      first accepted reading of a centred stick reports both axes at 0. */
  lemma FirstCentredReadingReportsAxes(c: Status)
    requires c.axis0 == 128 && c.axis1 == 128
    ensures On(Diff(InitialStatus(), c), SlotX) == [Abs(AbsX, 0)]
    ensures On(Diff(InitialStatus(), c), SlotY) == [Abs(AbsY, 0)]
  {
    AxisReported(UseAnalogDpad, InitialStatus(), c);
  }
}
