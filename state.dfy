/** The absolute cursor position the firmware keeps so that it can turn an
    absolute move into relative reports. */
module State {
  import opened Common

  /** `i16::saturating_add`: the exact sum, clamped to the `i16` range. */
  function SaturatingAdd(a: i16, b: i16): (r: i16)
    ensures -0x8000 <= a + b < 0x8000 ==> r == a + b
    ensures a + b >= 0x8000 ==> r == 0x7FFF
    ensures a + b < -0x8000 ==> r == -0x8000
  {
    Max(-0x8000, Min(a + b, 0x7FFF))
  }

  /** A positive step never moves the position back, a negative one never
      forward, whatever the clamping. */
  lemma SaturatingAddDirection(a: i16, b: i16)
    ensures b >= 0 ==> a <= SaturatingAdd(a, b)
    ensures b <= 0 ==> SaturatingAdd(a, b) <= a
  {
  }

  /** Clamped addition is monotone in the starting position. */
  lemma SaturatingAddMonotone(a: i16, a': i16, b: i16)
    requires a <= a'
    ensures SaturatingAdd(a, b) <= SaturatingAdd(a', b)
  {
  }

  /** Two steps in the same direction clamp to what one combined step gives. */
  lemma {:induction false} SaturatingAddTwice(a: i16, b: i16, c: i16)
    requires b >= 0 && c >= 0 && b + c < 0x8000
    ensures SaturatingAdd(SaturatingAdd(a, b), c) == SaturatingAdd(a, b + c)
  {
    var s := SaturatingAdd(a, b);
    if a + b >= 0x8000 {
      assert s == 0x7FFF;
    } else {
      assert s == a + b;
    }
  }

  class MouseState {
    var x: i16
    var y: i16

    /** The cursor starts at the origin. */
    constructor()
      ensures x == 0 && y == 0
    {
      x, y := 0, 0;
    }

    /** Applies a relative move, each axis clamped to the `i16` range. */
    method UpdateRelative(dx: i16, dy: i16)
      modifies this
      ensures x == SaturatingAdd(old(x), dx) && y == SaturatingAdd(old(y), dy)
    {
      x := SaturatingAdd(x, dx);
      y := SaturatingAdd(y, dy);
    }

    /** The relative move from the current position to a target, with the
        release-build wrap-around of `i16` subtraction: adding it back with
        wrap-around lands exactly on the target, and it is the exact difference
        whenever that difference fits in an `i16`. */
    function DeltaTo(targetX: i16, targetY: i16): (d: (i16, i16))
      reads this
      ensures WrapI16(x + d.0) == targetX && WrapI16(y + d.1) == targetY
      ensures -0x8000 <= targetX - x < 0x8000 ==> d.0 == targetX - x
      ensures -0x8000 <= targetY - y < 0x8000 ==> d.1 == targetY - y
    {
      var dx := WrapI16(targetX - x);
      var dy := WrapI16(targetY - y);
      WrapAddBack(x, targetX);
      WrapAddBack(y, targetY);
      (dx, dy)
    }

    /** Records an absolute position. */
    method SetPosition(newX: i16, newY: i16)
      modifies this
      ensures x == newX && y == newY
    {
      x, y := newX, newY;
    }

    /** The current position. */
    function Position(): (p: (i16, i16))
      reads this
      ensures p.0 == x && p.1 == y
    {
      (x, y)
    }
  }

  /** Wrapping subtraction followed by wrapping addition is the identity. */
  lemma WrapAddBack(a: i16, t: i16)
    ensures WrapI16(a + WrapI16(t - a)) == t
  {
    var d := WrapI16(t - a);
    var k := (t - a + 0x8000) / 0x1_0000;
    assert d == t - a - 0x1_0000 * k;
    assert a + d + 0x8000 == (t + 0x8000) + 0x1_0000 * (0 - k);
  }

  /** A run of moves starting at the origin: the first axis clamps at the top
      of the range, the delta back to the origin is exact, and the delta from
      32767 to -32768, which does not fit in 16 bits, wraps to +1. */
  method TrackingScenario() returns (p: (i16, i16), back: (i16, i16), across: (i16, i16))
    ensures p == (0x7FFF, -5)
    ensures back == (-0x7FFF, 5)
    ensures across == (1, 5)
  {
    var m := new MouseState();
    m.UpdateRelative(30000, 0);
    m.UpdateRelative(30000, -5);
    p := m.Position();
    back := m.DeltaTo(0, 0);
    across := m.DeltaTo(-0x8000, 0);
    m.SetPosition(100, 200);
    var q := m.Position();
    assert q == (100, 200);
  }
}
