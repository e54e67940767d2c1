/** Integer rectangles as pygame's `Rect`, and Python's `int()` of a float. */
module Geometry {
  /** Left edge x, top edge y, width w and height h, all in whole pixels. */
  datatype Rect = Rect(x: int, y: int, w: int, h: int)

  /**
   * `colliderect` for rectangles of positive size: the two overlap on both
   * axes with positive extent (touching edges do not collide).
   */
  predicate Collide(a: Rect, b: Rect)
  {
    a.x < b.x + b.w && b.x < a.x + a.w && a.y < b.y + b.h && b.y < a.y + a.h
  }

  /** `int(r)`: drops the fractional part, rounding toward zero. */
  function Trunc(r: real): (n: int)
    ensures r >= 0.0 ==> 0 <= n && n as real <= r < n as real + 1.0
    ensures r < 0.0 ==> n <= 0 && n as real - 1.0 < r <= n as real
  {
    if r >= 0.0 then r.Floor else -((-r).Floor)
  }
}
