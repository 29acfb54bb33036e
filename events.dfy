/** The input events the driver writes to the virtual uinput device, and the
    ranges that device declares for them. */
module Events {
  import opened Registers

  /** The key codes, listed in the order of their button bits. */
  datatype KeyCode =
    | BtnA | BtnB | BtnX | BtnY | BtnTL | BtnTR | BtnStart | BtnSelect
    | BtnDpadUp | BtnDpadDown | BtnDpadLeft | BtnDpadRight

  /** Number of button bits the driver looks at. */
  const NumKeys: nat := 12

  /** The key table: bit b of the buttons register drives key KeyAt(b). */
  function KeyAt(b: nat): (k: KeyCode)
    requires b < NumKeys
    ensures KeyBit(k) == b
  {
    if b == 0 then BtnA
    else if b == 1 then BtnB
    else if b == 2 then BtnX
    else if b == 3 then BtnY
    else if b == 4 then BtnTL
    else if b == 5 then BtnTR
    else if b == 6 then BtnStart
    else if b == 7 then BtnSelect
    else if b == 8 then BtnDpadUp
    else if b == 9 then BtnDpadDown
    else if b == 10 then BtnDpadLeft
    else BtnDpadRight
  }

  /** The button bit that drives key k. */
  function KeyBit(k: KeyCode): (b: nat)
    ensures b < NumKeys
  {
    match k
    case BtnA => 0
    case BtnB => 1
    case BtnX => 2
    case BtnY => 3
    case BtnTL => 4
    case BtnTR => 5
    case BtnStart => 6
    case BtnSelect => 7
    case BtnDpadUp => 8
    case BtnDpadDown => 9
    case BtnDpadLeft => 10
    case BtnDpadRight => 11
  }

  /** KeyBit and KeyAt are inverse: every key has exactly one bit. */
  lemma KeyTableInverse(k: KeyCode)
    ensures KeyAt(KeyBit(k)) == k
  {
  }

  /** The absolute axes, listed in the order in which the driver reports them. */
  datatype AbsCode = AbsHat0Y | AbsHat0X | AbsX | AbsY

  /** One input_event: EV_KEY with a key code or EV_ABS with an axis code. */
  datatype Event = Key(key: KeyCode, value: int) | Abs(axis: AbsCode, value: int)

  const SlotHat0Y: nat := 12
  const SlotHat0X: nat := 13
  const SlotX: nat := 14
  const SlotY: nat := 15
  const NumSlots: nat := 16

  /** The position of an event's code in the driver's fixed emission order:
      keys by bit, then HAT0Y, HAT0X, X, Y. Different codes have different
      slots. */
  function Slot(e: Event): (n: nat)
    ensures n < NumSlots
    ensures e.Key? <==> n < NumKeys
  {
    match e
    case Key(k, _) => KeyBit(k)
    case Abs(a, _) =>
      match a
      case AbsHat0Y => SlotHat0Y
      case AbsHat0X => SlotHat0X
      case AbsX => SlotX
      case AbsY => SlotY
  }

  /** The least value the virtual device declares for an axis. */
  function AbsMin(a: AbsCode): int {
    match a
    case AbsX => -512
    case AbsY => -512
    case AbsHat0X => -1
    case AbsHat0Y => -1
  }

  /** The greatest value the virtual device declares for an axis. */
  function AbsMax(a: AbsCode): int {
    match a
    case AbsX => 511
    case AbsY => 511
    case AbsHat0X => 1
    case AbsHat0Y => 1
  }

  /** A key event carries 0 or 1; an axis event a value within the axis's
      declared range. */
  predicate InDeviceRange(e: Event) {
    match e
    case Key(_, v) => v == 0 || v == 1
    case Abs(a, v) => AbsMin(a) <= v <= AbsMax(a)
  }

  ghost predicate AllInDeviceRange(r: seq<Event>) {
    forall e :: e in r ==> InDeviceRange(e)
  }

  /** The events of r whose code sits in slot n, in their order in r. */
  function On(r: seq<Event>, n: nat): (s: seq<Event>)
    ensures |s| <= |r|
    ensures forall e :: e in s ==> e in r && Slot(e) == n
  {
    if r == [] then []
    else (if Slot(r[0]) == n then [r[0]] else []) + On(r[1..], n)
  }

  /** Slots strictly increase along r: the codes come in emission order and
      no code occurs twice. */
  ghost predicate Ordered(r: seq<Event>) {
    forall i, j :: 0 <= i < j < |r| ==> Slot(r[i]) < Slot(r[j])
  }

  /** Every event of r sits in a slot in [lo, hi). */
  ghost predicate SlotsIn(r: seq<Event>, lo: nat, hi: nat) {
    forall e :: e in r ==> lo <= Slot(e) < hi
  }

  /** r uses only slots in [lo, hi), in increasing order, within the
      device's ranges. */
  ghost predicate WellFormed(r: seq<Event>, lo: nat, hi: nat) {
    SlotsIn(r, lo, hi) && AllInDeviceRange(r) && Ordered(r)
  }

  lemma ConcatWellFormed(a: seq<Event>, b: seq<Event>, lo: nat, mid: nat, hi: nat)
    requires lo <= mid <= hi
    requires WellFormed(a, lo, mid) && WellFormed(b, mid, hi)
    ensures WellFormed(a + b, lo, hi)
  {
    OrderedConcat(a, b, mid);
    forall e | e in a + b ensures lo <= Slot(e) < hi && InDeviceRange(e) {
      assert e in a || e in b;
    }
  }

  lemma WidenWellFormed(r: seq<Event>, lo: nat, hi: nat, lo': nat, hi': nat)
    requires WellFormed(r, lo, hi) && lo' <= lo && hi <= hi'
    ensures WellFormed(r, lo', hi')
  {
  }

  lemma SingleWellFormed(e: Event)
    requires InDeviceRange(e)
    ensures WellFormed([e], Slot(e), Slot(e) + 1)
  {
  }

  /** In an ordered sequence, an event in a lower slot comes earlier. */
  lemma OrderedIndexes(r: seq<Event>, i: nat, j: nat)
    requires Ordered(r) && i < |r| && j < |r|
    requires Slot(r[i]) < Slot(r[j])
    ensures i < j
  {
  }

  lemma OnSingle(e: Event, n: nat)
    ensures On([e], n) == if Slot(e) == n then [e] else []
  {
    assert [e][1..] == [];
  }

  lemma {:induction false} OnConcat(a: seq<Event>, b: seq<Event>, n: nat)
    ensures On(a + b, n) == On(a, n) + On(b, n)
  {
    if a == [] {
      assert a + b == b;
    } else {
      assert (a + b)[1..] == a[1..] + b;
      OnConcat(a[1..], b, n);
    }
  }

  /** Every event of r is found among the events of its own slot. */
  lemma {:induction false} OnMember(r: seq<Event>, i: nat)
    requires i < |r|
    ensures r[i] in On(r, Slot(r[i]))
  {
    if i > 0 {
      OnMember(r[1..], i - 1);
      assert r[1..][i - 1] == r[i];
    }
  }

  lemma OrderedConcat(a: seq<Event>, b: seq<Event>, m: nat)
    requires Ordered(a) && Ordered(b)
    requires forall e :: e in a ==> Slot(e) < m
    requires forall e :: e in b ==> m <= Slot(e)
    ensures Ordered(a + b)
  {
    forall i, j | 0 <= i < j < |a + b| ensures Slot((a + b)[i]) < Slot((a + b)[j]) {
      if j < |a| {
        assert (a + b)[i] == a[i] && (a + b)[j] == a[j];
      } else if i >= |a| {
        assert (a + b)[i] == b[i - |a|] && (a + b)[j] == b[j - |a|];
      } else {
        assert (a + b)[i] == a[i] && a[i] in a;
        assert (a + b)[j] == b[j - |a|] && b[j - |a|] in b;
      }
    }
  }
}
