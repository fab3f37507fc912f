/**
 * The few toolkit values the widgets compute with: rectangles, sizes,
 * the style and modifier bits they test, and Java's integer division.
 */
module Swt {

  /** SWT.DEFAULT: "no hint" for a width or height hint. */
  const DEFAULT: int := -1

  /** Style bits tested by the cell layout. */
  const TOP: bv32 := 1 << 7
  const BOTTOM: bv32 := 1 << 10
  const RIGHT: bv32 := 1 << 17
  const CENTER: bv32 := 1 << 24

  /** Keyboard modifier bits of a key event's state mask. */
  const SHIFT: int := 0x2_0000
  const CONTROL: int := 0x4_0000

  predicate HasStyle(style: bv32, bit: bv32) {
    style & bit != 0
  }

  /** A toolkit rectangle: position and extent, any of them may be negative. */
  datatype Rect = Rect(x: int, y: int, width: int, height: int)

  /** A measured extent (text extent, preferred size of a child control). */
  datatype Size = Size(x: nat, y: nat)

  /** A computed point, which hints may make negative. */
  datatype Point = Point(x: int, y: int)

  function Min(a: int, b: int): int { if a <= b then a else b }

  function Max(a: int, b: int): int { if a >= b then a else b }

  /** Java's `a / 2` on int: the quotient is truncated toward zero. */
  function Half(a: int): (r: int)
    ensures 2 * r == a || 2 * r == a - 1 || 2 * r == a + 1
    ensures a >= 0 ==> 0 <= r <= a
    ensures a < 0 ==> a <= r <= 0
  {
    if a >= 0 then a / 2 else -((-a) / 2)
  }
}
