/** The key codes the virtual device is configured to accept
    (createUInputDevice in driver/JoystickDevice.c). The input core passes on
    only key events whose code was enabled with UI_SET_KEYBIT. */
module Device {
  import opened Registers
  import opened Events
  import opened StateDiff
  import opened DiffProperties

  /** The keys enabled by createUInputDevice as written: the eight face,
      shoulder, start and select buttons, and no d-pad key. */
  const DeclaredKeys: set<KeyCode> := {BtnA, BtnB, BtnX, BtnY, BtnTL, BtnTR, BtnSelect, BtnStart}

  /** The keys the digital d-pad build needs enabled: the eight buttons and
      the four d-pad keys. */
  const DeclaredKeysWithDpad: set<KeyCode> :=
    DeclaredKeys + {BtnDpadUp, BtnDpadDown, BtnDpadLeft, BtnDpadRight}

  /** Whether the device passes on every key event of es. (All four
      absolute axes the driver reports are enabled.) */
  ghost predicate KeysDeclared(es: seq<Event>, keys: set<KeyCode>) {
    forall e :: e in es && e.Key? ==> e.key in keys
  }

  /** Every key event of the diff is for the key of a bit that changed, so its
      code is the code of its slot's bit. */
  lemma KeyEventBit(analog: bool, p: Status, c: Status, e: Event)
    requires e in DiffWith(analog, p, c) && e.Key?
    ensures KeyBit(e.key) < 8 || (!analog && KeyBit(e.key) < NumKeys)
  {
    var r := DiffWith(analog, p, c);
    var i :| 0 <= i < |r| && r[i] == e;
    var n := Slot(e);
    OnMember(r, i);
    DiffPerSlot(analog, p, c, n);
    ExpectedKeys(analog, p, c, n, e);
  }

  lemma ExpectedKeys(analog: bool, p: Status, c: Status, n: nat, e: Event)
    requires e in Expected(analog, p, c, n) && e.Key?
    ensures n < 8 || (!analog && n < NumKeys)
  {
  }

  /** As built (digital d-pad), pressing d-pad up (bit 8 going from clear to
      set) emits BTN_DPAD_UP, a key the device never enabled, so the press is
      dropped. */
  lemma DpadPressIsDropped(p: Status, c: Status)
    requires !Bit(p.buttons, 8) && Bit(c.buttons, 8)
    ensures Key(BtnDpadUp, 1) in Diff(p, c)
    ensures BtnDpadUp !in DeclaredKeys
    ensures !KeysDeclared(Diff(p, c), DeclaredKeys)
  {
    DpadUpReported(p, c);
    assert Key(BtnDpadUp, 1) in On(Diff(p, c), 8);
    DpadKeysNotDeclared();
    UndeclaredKeyBlocks(Diff(p, c), Key(BtnDpadUp, 1), DeclaredKeys);
  }

  /** A single key event for a key that is not enabled is enough for the
      device to drop part of what was emitted. */
  lemma UndeclaredKeyBlocks(es: seq<Event>, e: Event, keys: set<KeyCode>)
    requires e in es && e.Key? && e.key !in keys
    ensures !KeysDeclared(es, keys)
  {
  }

  /** None of the four d-pad keys is enabled as written. */
  lemma DpadKeysNotDeclared()
    ensures BtnDpadUp !in DeclaredKeys && BtnDpadDown !in DeclaredKeys
    ensures BtnDpadLeft !in DeclaredKeys && BtnDpadRight !in DeclaredKeys
  {
  }

  lemma DpadUpReported(p: Status, c: Status)
    requires !Bit(p.buttons, 8) && Bit(c.buttons, 8)
    ensures On(Diff(p, c), 8) == [Key(BtnDpadUp, 1)]
  {
    KeyReported(UseAnalogDpad, p, c, 8);
  }

  /** With the analog d-pad the keys enabled as written suffice. */
  lemma AnalogKeysDeclared(p: Status, c: Status)
    ensures KeysDeclared(DiffWith(true, p, c), DeclaredKeys)
  {
    forall e | e in DiffWith(true, p, c) && e.Key? ensures e.key in DeclaredKeys {
      KeyEventBit(true, p, c, e);
      LowKeysDeclared(e.key);
    }
  }

  /** The keys of bits 0..7 are exactly the ones enabled as written. */
  lemma LowKeysDeclared(k: KeyCode)
    ensures KeyBit(k) < 8 <==> k in DeclaredKeys
  {
  }

  lemma EveryKeyWithDpad(k: KeyCode)
    ensures k in DeclaredKeysWithDpad
  {
  }

  /** With the d-pad keys enabled as well, the d-pad-up press that the build
      as written drops is emitted and every key event of the cycle reaches
      the device. */
  lemma DpadPressDelivered(p: Status, c: Status)
    requires !Bit(p.buttons, 8) && Bit(c.buttons, 8)
    ensures Key(BtnDpadUp, 1) in Diff(p, c)
    ensures BtnDpadUp in DeclaredKeysWithDpad
    ensures KeysDeclared(Diff(p, c), DeclaredKeysWithDpad)
  {
    DpadUpReported(p, c);
    assert Key(BtnDpadUp, 1) in On(Diff(p, c), 8);
    EveryKeyWithDpad(BtnDpadUp);
    KeysDeclaredWithDpad(UseAnalogDpad, p, c);
  }

  /** With the d-pad keys enabled as well, every key event of either build
      reaches the device. */
  lemma KeysDeclaredWithDpad(analog: bool, p: Status, c: Status)
    ensures KeysDeclared(DiffWith(analog, p, c), DeclaredKeysWithDpad)
  {
    forall e | e in DiffWith(analog, p, c) && e.Key? ensures e.key in DeclaredKeysWithDpad {
      EveryKeyWithDpad(e.key);
    }
  }
}
