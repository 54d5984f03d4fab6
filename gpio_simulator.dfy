/**
 * The GPIO-to-controller-snapshot mapping of the controller emulator: one
 * sampling pass turns the levels of up to 14 active-low button lines into the
 * two active-low button bytes, the two binary trigger bytes and the four
 * neutral stick axes of the input snapshot.
 *
 * The bit values of the gamepad button masks are not fixed here: every result
 * holds for any mask table in which each mask is a single bit and the masks of
 * one button byte are pairwise distinct (ValidMasks).
 */
module GpioSimulator {

  /** Number of button line slots in the fixed mapping. */
  const NumButtonPins: nat := 14

  /** Value of an analog stick axis at rest. */
  const Neutral: bv8 := 0x80

  /** The gamepad button masks, one per mapped button. */
  datatype Masks = Masks(
    circle: bv8, cross: bv8, triangle: bv8, square: bv8,
    l1: bv8, r1: bv8, l2: bv8, r2: bv8,
    up: bv8, down: bv8, left: bv8, right: bv8,
    start: bv8, select: bv8)

  /** Masks of slots 0..7, which all live in the second button byte. */
  function Group2(m: Masks): seq<bv8> {
    [m.circle, m.cross, m.triangle, m.square, m.l1, m.r1, m.l2, m.r2]
  }

  /** Masks of slots 8..13, which all live in the first button byte. */
  function Group1(m: Masks): seq<bv8> {
    [m.up, m.down, m.left, m.right, m.start, m.select]
  }

  predicate SingleBit(x: bv8) {
    x != 0 && x & (x - 1) == 0
  }

  /** Every mask is a single bit and no two masks of the group coincide. */
  predicate DistinctBits(ms: seq<bv8>) {
    && (forall i :: 0 <= i < |ms| ==> SingleBit(ms[i]))
    && (forall i, j :: 0 <= i < j < |ms| ==> ms[i] != ms[j])
  }

  predicate ValidMasks(m: Masks) {
    DistinctBits(Group2(m)) && DistinctBits(Group1(m))
  }

  /**
   * The line levels read during one pass (true = high = released).
   * `levels[i]` is the level of slot i's line as read first; the lines of
   * slots 6 and 7 are read a second time for their button bits, and
   * `l2Again`/`r2Again` are those second readings.
   */
  datatype Sample = Sample(levels: seq<bool>, l2Again: bool, r2Again: bool)

  /** Both readings of the trigger lines agree. */
  predicate Steady(s: Sample)
    requires |s.levels| == NumButtonPins
  {
    s.l2Again == s.levels[6] && s.r2Again == s.levels[7]
  }

  /** The input snapshot published to the protocol responder. */
  datatype InputState = InputState(
    buttons1: bv8, buttons2: bv8,
    l2: bv8, r2: bv8,
    lx: bv8, ly: bv8, rx: bv8, ry: bv8)

  /** The snapshot with nothing pressed. */
  const Released := InputState(0xFF, 0xFF, 0x00, 0x00, Neutral, Neutral, Neutral, Neutral)

  /** The level used for slot i's button bit. */
  function ButtonLevel(s: Sample, i: nat): bool
    requires i < NumButtonPins == |s.levels|
  {
    if i == 6 then s.l2Again else if i == 7 then s.r2Again else s.levels[i]
  }

  /** Slot i is configured and its line reads low. */
  function SlotPressed(btnCount: int, s: Sample, i: nat): bool
    requires i < NumButtonPins == |s.levels|
  {
    btnCount > i && !ButtonLevel(s, i)
  }

  function Group2Pressed(btnCount: int, s: Sample): (ps: seq<bool>)
    requires |s.levels| == NumButtonPins
    ensures |ps| == 8
  {
    seq(8, k requires 0 <= k < 8 => SlotPressed(btnCount, s, k))
  }

  function Group1Pressed(btnCount: int, s: Sample): (ps: seq<bool>)
    requires |s.levels| == NumButtonPins
    ensures |ps| == 6
  {
    seq(6, k requires 0 <= k < 6 => SlotPressed(btnCount, s, 8 + k))
  }

  /** Successive `b &= ~ms[k]` for every k whose `ps[k]` holds, in slot order. */
  function Cleared(b: bv8, ms: seq<bv8>, ps: seq<bool>): bv8
    requires |ms| == |ps|
    decreases |ms|
  {
    if ms == [] then b
    else Cleared(if ps[0] then b & !ms[0] else b, ms[1..], ps[1..])
  }

  /** The union of the masks whose `ps[k]` holds. */
  function Union(ms: seq<bv8>, ps: seq<bool>): bv8
    requires |ms| == |ps|
    decreases |ms|
  {
    if ms == [] then 0 else (if ps[0] then ms[0] else 0) | Union(ms[1..], ps[1..])
  }

  /** The union of all the masks. */
  function AllBits(ms: seq<bv8>): bv8
    decreases |ms|
  {
    if ms == [] then 0 else ms[0] | AllBits(ms[1..])
  }

  /**
   * One sampling pass: both button bytes start released (0xFF) and lose the
   * bit of every configured slot whose line reads low; a trigger byte is 0xFF
   * when its slot is configured and low, else 0x00; the stick axes are neutral.
   */
  function Poll(m: Masks, btnCount: int, s: Sample): (r: InputState)
    requires |s.levels| == NumButtonPins
    ensures r.lx == r.ly == r.rx == r.ry == Neutral
    ensures r.l2 == 0xFF || r.l2 == 0x00
    ensures r.r2 == 0xFF || r.r2 == 0x00
  {
    InputState(
      buttons1 := Cleared(0xFF, Group1(m), Group1Pressed(btnCount, s)),
      buttons2 := Cleared(0xFF, Group2(m), Group2Pressed(btnCount, s)),
      l2 := if btnCount > 6 && !s.levels[6] then 0xFF else 0x00,
      r2 := if btnCount > 7 && !s.levels[7] then 0xFF else 0x00,
      lx := Neutral, ly := Neutral, rx := Neutral, ry := Neutral)
  }

  // ---------------------------------------------------------------------
  // Bit-level facts about the masks

  lemma SingleBitsDisjoint(a: bv8, b: bv8)
    requires SingleBit(a) && SingleBit(b) && a != b
    ensures a & b == 0
  {
  }

  /** Clearing bit by bit is clearing the union of the pressed masks at once. */
  lemma {:induction false} ClearedIsMaskedOut(b: bv8, ms: seq<bv8>, ps: seq<bool>)
    requires |ms| == |ps|
    ensures Cleared(b, ms, ps) == b & !Union(ms, ps)
    decreases |ms|
  {
    if ms != [] {
      var b' := if ps[0] then b & !ms[0] else b;
      ClearedIsMaskedOut(b', ms[1..], ps[1..]);
    }
  }

  /** A mask disjoint from every mask of a group is disjoint from any union of them. */
  lemma {:induction false} UnionDisjoint(ms: seq<bv8>, ps: seq<bool>, x: bv8)
    requires |ms| == |ps|
    requires forall k :: 0 <= k < |ms| ==> ms[k] & x == 0
    ensures Union(ms, ps) & x == 0
    decreases |ms|
  {
    if ms != [] {
      UnionDisjoint(ms[1..], ps[1..], x);
    }
  }

  /** With distinct single-bit masks, mask i is in the union exactly when ps[i] holds. */
  lemma {:induction false} UnionAt(ms: seq<bv8>, ps: seq<bool>, i: nat)
    requires |ms| == |ps| && i < |ms|
    requires DistinctBits(ms)
    ensures Union(ms, ps) & ms[i] == (if ps[i] then ms[i] else 0)
    decreases |ms|
  {
    if i == 0 {
      forall k | 0 <= k < |ms[1..]| ensures ms[1..][k] & ms[0] == 0 {
        SingleBitsDisjoint(ms[1..][k], ms[0]);
      }
      UnionDisjoint(ms[1..], ps[1..], ms[0]);
    } else {
      SingleBitsDisjoint(ms[0], ms[i]);
      UnionAt(ms[1..], ps[1..], i - 1);
    }
  }

  /** The union of any selection lies within the union of all masks. */
  lemma {:induction false} UnionWithinAll(ms: seq<bv8>, ps: seq<bool>)
    requires |ms| == |ps|
    ensures Union(ms, ps) & !AllBits(ms) == 0
    decreases |ms|
  {
    if ms != [] {
      UnionWithinAll(ms[1..], ps[1..]);
    }
  }

  /** Nothing selected, nothing in the union. */
  lemma {:induction false} UnionOfNothing(ms: seq<bv8>, ps: seq<bool>)
    requires |ms| == |ps|
    requires forall k :: 0 <= k < |ps| ==> !ps[k]
    ensures Union(ms, ps) == 0
    decreases |ms|
  {
    if ms != [] {
      UnionOfNothing(ms[1..], ps[1..]);
    }
  }

  /** Clearing nothing leaves the byte as it was. */
  lemma ClearedNothing(b: bv8, ms: seq<bv8>, ps: seq<bool>)
    requires |ms| == |ps|
    requires forall k :: 0 <= k < |ps| ==> !ps[k]
    ensures Cleared(b, ms, ps) == b
  {
    ClearedIsMaskedOut(b, ms, ps);
    UnionOfNothing(ms, ps);
  }

  /** A cleared byte keeps mask i exactly when ps[i] does not hold. */
  lemma ClearedBit(ms: seq<bv8>, ps: seq<bool>, i: nat)
    requires |ms| == |ps| && i < |ms|
    requires DistinctBits(ms)
    ensures Cleared(0xFF, ms, ps) & ms[i] == 0 <==> ps[i]
  {
    ClearedIsMaskedOut(0xFF, ms, ps);
    UnionAt(ms, ps, i);
  }

  // ---------------------------------------------------------------------
  // Properties of one sampling pass

  /**
   * Slots 0..7: the slot's bit in buttons2 is cleared exactly when the slot is
   * configured (index below btnCount) and its line reads low.
   */
  lemma Buttons2Bit(m: Masks, btnCount: int, s: Sample, i: nat)
    requires ValidMasks(m) && |s.levels| == NumButtonPins && i < 8
    ensures Poll(m, btnCount, s).buttons2 & Group2(m)[i] == 0 <==> btnCount > i && !ButtonLevel(s, i)
  {
    ClearedBit(Group2(m), Group2Pressed(btnCount, s), i);
  }

  /**
   * Slots 8..13: the slot's bit in buttons1 is cleared exactly when the slot is
   * configured and its line reads low.
   */
  lemma Buttons1Bit(m: Masks, btnCount: int, s: Sample, i: nat)
    requires ValidMasks(m) && |s.levels| == NumButtonPins && 8 <= i < NumButtonPins
    ensures Poll(m, btnCount, s).buttons1 & Group1(m)[i - 8] == 0 <==> btnCount > i && !s.levels[i]
  {
    ClearedBit(Group1(m), Group1Pressed(btnCount, s), i - 8);
  }

  /** Bits that no mask of a byte covers stay set (released), whatever the input. */
  lemma UnmappedBitsStaySet(m: Masks, btnCount: int, s: Sample)
    requires |s.levels| == NumButtonPins
    ensures Poll(m, btnCount, s).buttons1 & !AllBits(Group1(m)) == !AllBits(Group1(m))
    ensures Poll(m, btnCount, s).buttons2 & !AllBits(Group2(m)) == !AllBits(Group2(m))
  {
    ClearedIsMaskedOut(0xFF, Group1(m), Group1Pressed(btnCount, s));
    UnionWithinAll(Group1(m), Group1Pressed(btnCount, s));
    ClearedIsMaskedOut(0xFF, Group2(m), Group2Pressed(btnCount, s));
    UnionWithinAll(Group2(m), Group2Pressed(btnCount, s));
  }

  /**
   * With every line high, or with no slot configured, the pass yields the
   * released snapshot: both button bytes 0xFF, triggers 0x00, sticks neutral.
   */
  lemma NothingPressedIsReleased(m: Masks, btnCount: int, s: Sample)
    requires |s.levels| == NumButtonPins
    requires btnCount <= 0 ||
             ((forall i :: 0 <= i < NumButtonPins ==> s.levels[i]) && s.l2Again && s.r2Again)
    ensures Poll(m, btnCount, s) == Released
  {
    var p1, p2 := Group1Pressed(btnCount, s), Group2Pressed(btnCount, s);
    forall k | 0 <= k < 6 ensures !p1[k] {
      assert p1[k] == SlotPressed(btnCount, s, 8 + k);
    }
    forall k | 0 <= k < 8 ensures !p2[k] {
      assert p2[k] == SlotPressed(btnCount, s, k);
    }
    ClearedNothing(0xFF, Group1(m), p1);
    ClearedNothing(0xFF, Group2(m), p2);
  }

  /**
   * When both readings of a trigger line agree, the trigger byte is 0xFF
   * exactly when its slot is configured and low, and exactly then its button
   * bit in buttons2 is cleared.
   */
  lemma TriggersMirrorButtons(m: Masks, btnCount: int, s: Sample)
    requires ValidMasks(m) && |s.levels| == NumButtonPins && Steady(s)
    ensures var r := Poll(m, btnCount, s);
            && (r.l2 == 0xFF <==> btnCount > 6 && !s.levels[6])
            && (r.r2 == 0xFF <==> btnCount > 7 && !s.levels[7])
            && (r.buttons2 & m.l2 == 0 <==> r.l2 == 0xFF)
            && (r.buttons2 & m.r2 == 0 <==> r.r2 == 0xFF)
  {
    Buttons2Bit(m, btnCount, s, 6);
    Buttons2Bit(m, btnCount, s, 7);
  }

  /**
   * The trigger lines are read twice per pass; if the line changes between
   * the two readings, the trigger byte reports pressed while its button bit
   * reports released.
   */
  lemma TriggerReadingsMayDisagree(m: Masks, btnCount: int, s: Sample)
    requires ValidMasks(m) && |s.levels| == NumButtonPins
    requires btnCount > 6 && !s.levels[6] && s.l2Again
    ensures Poll(m, btnCount, s).l2 == 0xFF
    ensures Poll(m, btnCount, s).buttons2 & m.l2 != 0
  {
    Buttons2Bit(m, btnCount, s, 6);
  }

  /** Slots 8..13 never affect buttons2 or the triggers. */
  lemma Buttons2DependsOnlyOnSlots0To7(m: Masks, btnCount: int, s: Sample, s': Sample)
    requires |s.levels| == |s'.levels| == NumButtonPins
    requires forall i :: 0 <= i < 8 ==> s.levels[i] == s'.levels[i]
    requires s.l2Again == s'.l2Again && s.r2Again == s'.r2Again
    ensures var r, r' := Poll(m, btnCount, s), Poll(m, btnCount, s');
            r.buttons2 == r'.buttons2 && r.l2 == r'.l2 && r.r2 == r'.r2
  {
    assert Group2Pressed(btnCount, s) == Group2Pressed(btnCount, s');
  }

  /** Slots 0..7 never affect buttons1. */
  lemma Buttons1DependsOnlyOnSlots8To13(m: Masks, btnCount: int, s: Sample, s': Sample)
    requires |s.levels| == |s'.levels| == NumButtonPins
    requires forall i :: 8 <= i < NumButtonPins ==> s.levels[i] == s'.levels[i]
    ensures Poll(m, btnCount, s).buttons1 == Poll(m, btnCount, s').buttons1
  {
    assert Group1Pressed(btnCount, s) == Group1Pressed(btnCount, s');
  }

  /**
   * The levels of slots at or beyond btnCount never change the result: two
   * samples that agree on the configured slots give the same snapshot.
   */
  lemma UnconfiguredSlotsIgnored(m: Masks, btnCount: int, s: Sample, s': Sample)
    requires |s.levels| == |s'.levels| == NumButtonPins
    requires forall i :: 0 <= i < NumButtonPins && i < btnCount ==> s.levels[i] == s'.levels[i]
    requires btnCount > 6 ==> s.l2Again == s'.l2Again
    requires btnCount > 7 ==> s.r2Again == s'.r2Again
    ensures Poll(m, btnCount, s) == Poll(m, btnCount, s')
  {
    assert Group1Pressed(btnCount, s) == Group1Pressed(btnCount, s');
    assert Group2Pressed(btnCount, s) == Group2Pressed(btnCount, s');
  }

  /** Every configured slot of 1..7 whose line reads low has its buttons2 bit cleared. */
  lemma LowSlotsPressed2(m: Masks, btnCount: int, s: Sample)
    requires ValidMasks(m) && |s.levels| == NumButtonPins
    requires forall k :: 1 <= k < 8 ==> btnCount > k && !ButtonLevel(s, k)
    ensures forall k :: 1 <= k < 8 ==> Poll(m, btnCount, s).buttons2 & Group2(m)[k] == 0
  {
    forall k | 1 <= k < 8 ensures Poll(m, btnCount, s).buttons2 & Group2(m)[k] == 0 {
      Buttons2Bit(m, btnCount, s, k);
    }
  }

  /** Every configured slot of 8..13 whose line reads low has its buttons1 bit cleared. */
  lemma LowSlotsPressed1(m: Masks, btnCount: int, s: Sample)
    requires ValidMasks(m) && |s.levels| == NumButtonPins
    requires forall k :: 8 <= k < NumButtonPins ==> btnCount > k && !s.levels[k]
    ensures forall k :: 0 <= k < 6 ==> Poll(m, btnCount, s).buttons1 & Group1(m)[k] == 0
  {
    forall k | 0 <= k < 6 ensures Poll(m, btnCount, s).buttons1 & Group1(m)[k] == 0 {
      Buttons1Bit(m, btnCount, s, 8 + k);
    }
  }

  /**
   * All 14 slots configured, every line low except slot 0 (Circle): Circle's
   * bit reads released and every other mapped bit reads pressed.
   */
  lemma OnlyCircleReleasedScenario(m: Masks, s: Sample)
    requires ValidMasks(m) && |s.levels| == NumButtonPins && Steady(s)
    requires s.levels[0] && forall i :: 1 <= i < NumButtonPins ==> !s.levels[i]
    ensures var r := Poll(m, NumButtonPins, s);
            && r.buttons2 & m.circle != 0
            && (forall k :: 1 <= k < 8 ==> r.buttons2 & Group2(m)[k] == 0)
            && (forall k :: 0 <= k < 6 ==> r.buttons1 & Group1(m)[k] == 0)
            && r.l2 == 0xFF && r.r2 == 0xFF
  {
    Buttons2Bit(m, NumButtonPins, s, 0);
    assert forall k :: 1 <= k < 8 ==> NumButtonPins > k && !ButtonLevel(s, k);
    LowSlotsPressed2(m, NumButtonPins, s);
    assert forall k :: 8 <= k < NumButtonPins ==> NumButtonPins > k && !s.levels[k];
    LowSlotsPressed1(m, NumButtonPins, s);
  }

  /**
   * The file-scope emulator state: the published snapshot, the number of
   * configured button slots and the mask table of the build.
   */
  class ButtonPoller {
    var state: InputState
    var btnCount: int
    const masks: Masks

    /** The state as set up before the polling loop starts. */
    constructor (masks: Masks, btnCount: int)
      ensures this.masks == masks && this.btnCount == btnCount
      ensures state == Released
    {
      this.masks := masks;
      this.btnCount := btnCount;
      state := Released;
    }

    /**
     * One sampling pass: the snapshot is recomputed from the current levels
     * alone, so nothing of the previous snapshot survives.
     */
    method PollButtons(s: Sample)
      requires |s.levels| == NumButtonPins
      modifies this`state
      ensures state == Poll(masks, btnCount, s)
    {
      state := Poll(masks, btnCount, s);
    }
  }
}
