/** The boot-protocol HID reports the firmware injects: an 8-byte keyboard
    report and a 5-byte mouse report, with their wire layout and the keyboard
    modifier bits. */
module Hid {
  import opened Common

  /** The six key slots of a keyboard report (`[u8; 6]`). */
  type Keys = s: seq<u8> | |s| == 6 witness [0, 0, 0, 0, 0, 0]

  datatype KeyboardReport = KeyboardReport(modifier: u8, reserved: u8, keys: Keys)

  datatype MouseReport = MouseReport(buttons: u8, x: i8, y: i8, wheel: i8, pan: i8)

  /** Scancodes used by the firmware's own examples. */
  const KeyA: u8 := 0x04
  const KeyC: u8 := 0x06

  /** The keyboard modifier byte, one bit per modifier key. */
  const ModLCtrl: u8 := 0x01
  const ModLShift: u8 := 0x02
  const ModLAlt: u8 := 0x04
  const ModLGui: u8 := 0x08
  const ModRCtrl: u8 := 0x10
  const ModRShift: u8 := 0x20
  const ModRAlt: u8 := 0x40
  const ModRGui: u8 := 0x80

  /** The modifiers in bit order: left Ctrl, Shift, Alt, GUI, then the right ones. */
  const Modifiers: seq<u8> := [ModLCtrl, ModLShift, ModLAlt, ModLGui, ModRCtrl, ModRShift, ModRAlt, ModRGui]

  function Pow2(k: nat): (p: nat)
    ensures p >= 1
  {
    if k == 0 then 1 else 2 * Pow2(k - 1)
  }

  lemma Pow2Table()
    ensures Pow2(0) == 1 && Pow2(1) == 2 && Pow2(2) == 4 && Pow2(3) == 8
    ensures Pow2(4) == 16 && Pow2(5) == 32 && Pow2(6) == 64 && Pow2(7) == 128
  {
    assert Pow2(4) == 16;
  }

  /** Whether bit `k` of `m` is set. */
  predicate HasBit(m: u8, k: nat) {
    (m / Pow2(k)) % 2 == 1
  }

  /** Bitwise OR of two bytes, as `|` on `u8`. */
  function BitOr(a: u8, b: u8): u8 {
    ((a as bv8) | (b as bv8)) as int
  }

  // ---------------------------------------------------------------------------
  // Keyboard report

  /** All keys released, no modifier. */
  function EmptyKeyboard(): KeyboardReport {
    KeyboardReport(0, 0, [0, 0, 0, 0, 0, 0])
  }

  /** One key held, with the given modifier byte. */
  function SingleKey(scancode: u8, modifiers: u8): (r: KeyboardReport)
    ensures KeyboardFromBytes([modifiers, 0, scancode, 0, 0, 0, 0, 0]) == r
  {
    KeyboardReport(modifiers, 0, [scancode, 0, 0, 0, 0, 0])
  }

  /** The 8 bytes sent on the wire: modifier, reserved, then the six keys. */
  function KeyboardBytes(r: KeyboardReport): (b: seq<u8>)
    ensures |b| == 8
  {
    [r.modifier, r.reserved] + r.keys
  }

  /** Reads a keyboard report back from its 8 wire bytes. */
  function KeyboardFromBytes(b: seq<u8>): KeyboardReport
    requires |b| == 8
  {
    KeyboardReport(b[0], b[1], b[2..])
  }

  /** The wire layout loses nothing: decoding the bytes gives the report back,
      and every 8-byte string is the encoding of exactly one report. */
  lemma KeyboardRoundTrip(r: KeyboardReport, b: seq<u8>)
    ensures KeyboardFromBytes(KeyboardBytes(r)) == r
    ensures |b| == 8 ==> KeyboardBytes(KeyboardFromBytes(b)) == b
  {
    assert KeyboardBytes(r)[2..] == r.keys;
    if |b| == 8 {
      assert [b[0], b[1]] + b[2..] == b;
    }
  }

  /** The empty report is eight zero bytes. */
  lemma EmptyKeyboardBytes()
    ensures KeyboardBytes(EmptyKeyboard()) == Zeros(8)
  {
  }

  /** A single-key report puts the modifiers in byte 0, the scancode in
      byte 2 and zero everywhere else. */
  lemma SingleKeyBytes(scancode: u8, modifiers: u8)
    ensures KeyboardBytes(SingleKey(scancode, modifiers)) == [modifiers, 0, scancode, 0, 0, 0, 0, 0]
  {
  }

  /** Each modifier constant is the power of two of its position. */
  lemma ModifierBits()
    ensures forall k | 0 <= k < 8 :: Modifiers[k] == Pow2(k)
  {
    Pow2Table();
  }

  lemma {:induction false} Pow2Increasing(i: nat, j: nat)
    requires i < j
    ensures Pow2(i) < Pow2(j)
    decreases j
  {
    if i < j - 1 {
      Pow2Increasing(i, j - 1);
    }
  }

  /** The modifier constants are pairwise distinct. */
  lemma ModifiersDistinct()
    ensures forall i, j | 0 <= i < j < 8 :: Modifiers[i] != Modifiers[j]
  {
    ModifierBits();
    forall i, j | 0 <= i < j < 8
      ensures Modifiers[i] != Modifiers[j]
    {
      Pow2Increasing(i, j);
    }
  }

  /** Each modifier constant has exactly one bit set, the bit of its
      position. */
  lemma ModifiersSingleBits()
    ensures forall k, i | 0 <= k < 8 && 0 <= i < 8 :: HasBit(Modifiers[k], i) <==> i == k
  {
    ModifierBits();
    forall k, i | 0 <= k < 8 && 0 <= i < 8
      ensures HasBit(Modifiers[k], i) <==> i == k
    {
      Pow2Bits(k, i);
    }
  }

  /** Combined modifiers keep each of their bits: Shift+Ctrl sets bits 1 and
      0 and nothing else, and lands in byte 0 of the report. */
  lemma ShiftCtrlReport()
    ensures BitOr(ModLShift, ModLCtrl) == 0x03
    ensures forall k | 0 <= k < 8 :: HasBit(BitOr(ModLShift, ModLCtrl), k) <==> k < 2
    ensures KeyboardBytes(SingleKey(KeyA, BitOr(ModLShift, ModLCtrl))) == [0x03, 0, KeyA, 0, 0, 0, 0, 0]
  {
    Pow2Table();
  }

  // ---------------------------------------------------------------------------
  // Mouse report

  /** `b as i8`: the byte read as a two's-complement value. */
  function AsI8(b: u8): i8 {
    if b < 0x80 then b else b - 0x100
  }

  /** No buttons, no movement. */
  function EmptyMouse(): MouseReport {
    MouseReport(0, 0, 0, 0, 0)
  }

  /** One button pressed: `1 << button` on a `u8`, whose shift amount a
      release build takes modulo 8. */
  function Click(button: u8): (r: MouseReport)
    ensures HasBit(r.buttons, button % 8)
    ensures MouseBytes(r)[1..] == [0, 0, 0, 0]
  {
    Pow2Bits(button % 8, 0);
    Pow2Bits(button % 8, button % 8);
    MouseReport(Pow2(button % 8), 0, 0, 0, 0)
  }

  /** A movement with no buttons and no wheel. */
  function MoveTo(x: i8, y: i8): (r: MouseReport)
    ensures MouseFromBytes([0, AsU8(x), AsU8(y), 0, 0]) == r
  {
    SignedByteRoundTrip(x, 0);
    SignedByteRoundTrip(y, 0);
    MouseReport(0, x, y, 0, 0)
  }

  /** The 5 bytes sent on the wire: buttons, then x, y, wheel and pan as
      two's-complement bytes. */
  function MouseBytes(r: MouseReport): (b: seq<u8>)
    ensures |b| == 5
  {
    [r.buttons, AsU8(r.x), AsU8(r.y), AsU8(r.wheel), AsU8(r.pan)]
  }

  /** Reads a mouse report back from its 5 wire bytes. */
  function MouseFromBytes(b: seq<u8>): MouseReport
    requires |b| == 5
  {
    MouseReport(b[0], AsI8(b[1]), AsI8(b[2]), AsI8(b[3]), AsI8(b[4]))
  }

  /** `as u8` and `as i8` are inverse bijections between `i8` and `u8`. */
  lemma SignedByteRoundTrip(v: i8, b: u8)
    ensures AsI8(AsU8(v)) == v
    ensures AsU8(AsI8(b)) == b
  {
  }

  /** The mouse wire layout loses nothing, in both directions. */
  lemma MouseRoundTrip(r: MouseReport, b: seq<u8>)
    ensures MouseFromBytes(MouseBytes(r)) == r
    ensures |b| == 5 ==> MouseBytes(MouseFromBytes(b)) == b
  {
    SignedByteRoundTrip(r.x, 0);
    SignedByteRoundTrip(r.y, 0);
    SignedByteRoundTrip(r.wheel, 0);
    SignedByteRoundTrip(r.pan, 0);
    if |b| == 5 {
      SignedByteRoundTrip(0, b[1]);
      SignedByteRoundTrip(0, b[2]);
      SignedByteRoundTrip(0, b[3]);
      SignedByteRoundTrip(0, b[4]);
    }
  }

  /** The power of two below 256 that has bit `j` set is the one of index `j`. */
  lemma Pow2Bits(i: nat, j: nat)
    requires i < 8 && j < 8
    ensures Pow2(i) < 0x100
    ensures (Pow2(i) / Pow2(j)) % 2 == 1 <==> i == j
  {
    Pow2Table();
  }

  /** A click report presses exactly one button, the one named (taken modulo
      8), and moves nothing. */
  lemma ClickPressesOneButton(button: u8)
    ensures forall k | 0 <= k < 8 :: HasBit(Click(button).buttons, k) <==> k == button % 8
    ensures MouseBytes(Click(button))[1..] == [0, 0, 0, 0]
  {
    forall k | 0 <= k < 8
      ensures HasBit(Click(button).buttons, k) <==> k == button % 8
    {
      Pow2Bits(button % 8, k);
    }
  }

  /** A movement report carries the two offsets, two's complement, in bytes 1
      and 2, and nothing else. */
  lemma MoveToBytes(x: i8, y: i8)
    ensures MouseBytes(MoveTo(x, y)) == [0, AsU8(x), AsU8(y), 0, 0]
    ensures AsI8(MouseBytes(MoveTo(x, y))[1]) == x && AsI8(MouseBytes(MoveTo(x, y))[2]) == y
  {
    SignedByteRoundTrip(x, 0);
    SignedByteRoundTrip(y, 0);
  }

  /** The empty mouse report is five zero bytes; buttons 0, 1 and 2 give the
      masks 1, 2 and 4; (10, -5) goes out as 10 and 0xFB; a wheel of 3 goes
      out as byte 3. */
  lemma MouseReportExamples()
    ensures MouseBytes(EmptyMouse()) == Zeros(5)
    ensures MouseBytes(Click(0))[0] == 1 && MouseBytes(Click(1))[0] == 2 && MouseBytes(Click(2))[0] == 4
    ensures MouseBytes(MoveTo(10, -5)) == [0, 10, 0xFB, 0, 0]
    ensures MouseBytes(MoveTo(127, -127)) == [0, 127, 0x81, 0, 0]
    ensures MouseBytes(EmptyMouse().(wheel := 3))[3] == 3
    ensures EmptyMouse() == MouseReport(0, 0, 0, 0, 0) && Click(0).buttons == 1 && Click(1).buttons == 2 && Click(2).buttons == 4
    ensures MoveTo(10, -5) == MouseReport(0, 10, -5, 0, 0) && MoveTo(127, -127) == MouseReport(0, 127, -127, 0, 0)
  {
    assert Pow2(2) == 4;
  }
}
