/** Integer rectangles in pixel space, the overlap test the game relies on,
    and the rounding rule applied to velocities before a rectangle is moved. */
module Geometry {

  /** An axis-aligned rectangle: top-left corner and size, as a pygame Rect. */
  datatype Rect = Rect(x: int, y: int, w: int, h: int)

  /** The overlap test assumed of pygame's `colliderect`: both rectangles have
      area and their interiors intersect. */
  predicate Overlaps(a: Rect, b: Rect) {
    && a.w > 0 && a.h > 0 && b.w > 0 && b.h > 0
    && a.x < b.x + b.w && b.x < a.x + a.w
    && a.y < b.y + b.h && b.y < a.y + a.h
  }

  /** `move_ip`: translate by an integer displacement, keeping the size. */
  function MoveBy(r: Rect, d: (int, int)): Rect {
    r.(x := r.x + d.0, y := r.y + d.1)
  }

  /** `collidelist`: the index of the first rectangle of `rs` that `r` overlaps,
      or -1 when it overlaps none. */
  function CollideList(r: Rect, rs: seq<Rect>): (i: int)
    ensures -1 <= i < |rs|
    ensures i == -1 <==> forall j | 0 <= j < |rs| :: !Overlaps(r, rs[j])
    ensures i >= 0 ==> Overlaps(r, rs[i]) && forall j | 0 <= j < i :: !Overlaps(r, rs[j])
    decreases |rs|
  {
    if rs == [] then -1
    else if Overlaps(r, rs[0]) then 0
    else
      var k := CollideList(r, rs[1..]);
      assert forall j | 1 <= j < |rs| :: rs[j] == rs[1..][j - 1];
      if k == -1 then -1 else k + 1
  }

  /** Python's `round(v, 0)`: to the nearest integer, ties to the even one. */
  function RoundHalfEven(v: real): (n: int)
    ensures -0.5 <= v - n as real <= 0.5
    ensures v - n as real == 0.5 || v - n as real == -0.5 ==> n % 2 == 0
  {
    var f := v.Floor;
    var frac := v - f as real;
    if frac < 0.5 then f
    else if frac > 0.5 then f + 1
    else if f % 2 == 0 then f
    else f + 1
  }

  /** The two properties in the contract of `RoundHalfEven` pin the result down:
      any integer within one half of `v`, even on a tie, is that result. */
  lemma RoundHalfEvenUnique(v: real, n: int)
    requires -0.5 <= v - n as real <= 0.5
    requires v - n as real == 0.5 || v - n as real == -0.5 ==> n % 2 == 0
    ensures RoundHalfEven(v) == n
  {
  }

  /** Rounding commutes with negation, so mirrored velocities give mirrored
      displacements. */
  lemma RoundHalfEvenOdd(v: real)
    ensures RoundHalfEven(-v) == -RoundHalfEven(v)
  {
    var n := RoundHalfEven(v);
    RoundHalfEvenUnique(-v, -n);
  }

  /** An integral value is its own rounding. */
  lemma RoundHalfEvenIntegral(n: int)
    ensures RoundHalfEven(n as real) == n
  {
    RoundHalfEvenUnique(n as real, n);
  }
}
